# A verified model of the shop-accounting engine

This project models, in Dafny, the parts of the shop-accounting system where a wrong step is silent
and lasting: the general ledger and its year end, the fixed-asset register beside it, the amounts
spelled on cheques and read back from speech, the Jalali calendar and the scheduler of recurring
entries, and several smaller machines (categories, the offline write queue, bar codes, budget
commitments, freight, the login lockout). `dafny verify dfyconfig.toml` checks all of it.

Where the original changes rows in place, a class does so too (`Ledger`, `AssetRegister`,
`TemplateService`, `CategoryService`, `Queue`, `BudgetService.Service`, `AuthService.Account`): each of
its methods is proved equal to a transition on values, and the lemmas about whole runs are stated on
those values. Loops of the original that build a text, a list or an array are methods proved against a
specification function.

## How the system is read

- Money is in integer cents (rials where the original speaks of rials), so the tolerances 0.004 and
  0.005 become equality. Dates are whole Tehran days, numbered from 1 January 1970.
- One company. Unique indexes, the non-overlap constraint, row checks and triggers are written out as
  guards at the place where the database would refuse, and a failed transaction leaves the state as it was.
- The general ledger (`Journal`, `Posting`, `FiscalYears`, `LedgerInvariant`, `YearEnd`, `BreakEven`,
  `LedgerRuns`, `Documents`, `Openings`, `Reports`, `LedgerService`): the cached `balance` of an account is a fast form
  of summing its lines.
  Closing a year empties its revenue and expense accounts into retained earnings, and the trigger on
  `INSERT` *and* `UPDATE` then freezes it, status changes included.
- Fixed assets (`Depreciation`, `Assets`, `AssetRuns`, `AssetCharges`, `AssetKeys`, `AssetSupplements`,
  `AssetSchedules`, `AssetService`) post to accounts 1201 and 1202 in the transaction that changes the
  register. The unrounded monthly amount is computed in `real`.
- Number words and price speech (`NumberWords`, `PriceSpeech`, `SpokenAmounts`, `SpokenLists`, `SpokenUnits`,
  `SpokenPrices`, `SpokenFigures`, `QuoteMatching`, `QuoteText`): the printer and the parser share a
  vocabulary and undo each other, a price is taken to be in the unit named around it, and a product is given
  the first price said after its name.
- The calendar (`Jalali`) is the 33-year rule, which the original states to agree with ICU for the
  years 1300 to 1501; the backwards search of `fromJalali` is modelled step by step over it. Recurring
  templates (`JournalTemplates`, `ScheduleStalls`) move on by its months.
- The offline queue (`OfflineQueue`, `QueueFates`, `QueuePlaces`, `QueueOrder`, `QueueDrains`): while one record
  is on its way, others may be queued and users may sign out, in any order and with any clock.

## What the code does that its comments do not say

These were found while modelling; the model follows the code, and a lemma states each exactly.

- A year with activity but no net income cannot be closed: the retained-earnings line has no side
  (`YearEnd.BreakEvenYearIsRefused`, `YearEnd.CloseExactly`, `BreakEven.BarterYearCannotClose`).
- `allowClosedYear` has no effect, because the trigger refuses the row anyway (`Posting.PostInExactly`);
  for the same reason an entry of a closed year cannot be reversed at all (`LedgerInvariant.ReverseExactly`).
- An opening entry is right inside its year, but it doubles every cumulative figure after it
  (`YearEnd.OpeningDoublesCumulative`), so the next opening carries it again unless it was reversed
  (`Openings.StandingOpeningsRepeat`, `Openings.SecondOpeningCountsTwice`).
- A supplementary depreciation run numbers its entry by counting the live ones, so after one of a
  month's entries other than the last was reversed it is refused as a duplicate, and the new asset goes uncharged
  (`AssetKeys.RunDepreciationExactly`, `AssetSupplements.ReversalBlocksSupplement`,
  `AssetSupplements.SupplementCanBeRefused`).
- A negative purchase price is accepted, unposted, and can never be disposed of while the ledger is on;
  the register and the ledger differ by exactly those prices (`AssetKeys.DisposeExactly`,
  `AssetRuns.RegisterAgreesWithLedger`, `AssetSupplements.NegativePriceStays`).
- A recurring template whose due date was moved by hand can stall (`ScheduleStalls.HandDateExactly`,
  `ScheduleStalls.StallLasts`, `ScheduleStalls.HandDateStalls`).
- Clearing the offline queue while a record is on its way neither stops its sending nor, when that fails,
  its return (`QueuePlaces.OncePerRunExactly`, `QueueOrder.ClearedRecordReturns`,
  `QueueOrder.SigningOutStopsNothing`, `QueueOrder.ClearedOnItsWay`), and a clock that jumps back can break the order
  (`QueueOrder.OrderPerRunExactly`, `QueueOrder.ClockJumpBreaksOrder`).
- A thirteenth digit that is wrong is silently replaced (`Barcode.WrongCheckDigitIsReplaced`,
  `Barcode.WrongDigitVanishes`), and a
  skipped character spoils the Code 128 check exactly when the extra weight is not a multiple of 103
  (`Code128.ChecksOutExactly`).
- Settling a budget commitment at zero passes the service and fails on the table (`Budget.SettleExactly`).
- The last freight share can be negative, with value and without (`Freight.LastShareNegativeExactly`,
  `Freight.LastShareCanBeNegative`), and the last item can get less than cheaper ones, against the rule
  that dearer goods carry more (`Freight.LastAgainstEarlier`, `Freight.DearerLastGetsLess`).
- A toman word decides wherever it stands near a number, so a rial price right behind a toman price, or
  right before one whose number is a single word, comes out ten times too high
  (`SpokenPrices.OwnUnitExactly`, `SpokenPrices.RialBehindToman`).
- Only 200 characters of an address are stored but the whole is counted, so a longer address is never
  locked out (`Lockout.LongAddressNeverLocks`, `Lockout.LongAddressTakesAll`).
- The second step of a login never looks at the lock that its own wrong codes set
  (`Lockout.SecondStepIgnoresLock`, `Lockout.LockedAccountOpensByCode`).

## Model

| member | source | states |
|---|---|---|
| `Posting.PostInExactly` | backend/src/accounting/posting.service.ts:57-180 | a request is posted if and only if it has lines, its date is in an open fiscal year, its accounts exist and take postings, every line has one non-negative side, the sides agree and the document is not already posted |
| `Posting.PostedEntriesHaveTwoLines` | backend/src/accounting/posting.service.ts:115-131 | a posted entry always has at least two lines |
| `LedgerInvariant.ReverseExactly` | backend/src/accounting/posting.service.ts:217-265 | a reversal succeeds exactly for a posted entry whose own year and the present year are both open |
| `LedgerRuns.RunIsSound` | backend/src/accounting/ledger.service.ts:89-345 | over any run of accounts, years, postings, reversals, closings and openings the ledger invariant holds, entries of closed years never change, years keep their range and closed years stay closed |
| `LedgerRuns.CachedBalanceFollowsJournal` | backend/src/accounting/posting.service.ts:329-346 | after any run the cached balance of an account has moved by exactly the nature-signed sum of the lines added to it |
| `LedgerRuns.BalanceIsSumOfLines` | backend/src/accounting/posting.service.ts:329-346 | in a ledger started from the seed every cached balance is its opening balance plus the sum of its lines |
| `LedgerRuns.NewAccountKeepsItsOpening` | backend/src/accounting/accounting.service.ts:34-44 | an account created with a balance keeps that head start over its lines for ever |
| `LedgerRuns.EntryNumbersRise` | backend/src/accounting/posting.service.ts:355-364 | entry numbers are distinct and rise with time, in every reachable ledger |
| `LedgerInvariant.CreateFiscalYearExactly` | backend/src/accounting/ledger.service.ts:40-66 | in a sound ledger a year is taken if and only if it ends after it starts, its code is new and no day of it belongs to another year; it is then open and nothing else changes |
| `LedgerInvariant.CreateAccountExactly` | backend/src/accounting/accounting.service.ts:34-44 | a code not in use gives an account that takes postings, stands last in the chart and has nothing on it in the journal; no other account changes |
| `LedgerRuns.ClosedYearIsFinal` | backend/src/accounting/ledger.service.ts:68-88 | whatever runs after a closing, the year stays closed, its entries stay exactly as they were and its revenue and expense accounts stay empty |
| `LedgerRuns.ReversalCancels` | backend/src/accounting/posting.service.ts:217-265 | a reversal and its original contribute nothing together to any account in any report that holds both, and the cached balance returns by the original amount |
| `LedgerRuns.PostThenReverse` | backend/src/accounting/posting.service.ts:211-265 | posting and then reversing leaves every account row as it was |
| `LedgerRuns.NeverReversedTwice` | backend/src/accounting/posting.service.ts:227-229 | after a reversal, whatever runs in between, the entry cannot be reversed again |
| `Documents.OneLiveEntry` | backend/src/accounting/posting.service.ts:57-180 | in every reachable ledger a keyed document has at most one entry that is not reversed |
| `Documents.UndoDocumentExactly` | backend/src/accounting/posting.service.ts:274-319 | undoing a document without a live entry changes nothing; otherwise it works exactly while the entry's year and the year of the day are open, marks that entry and no other, adds its mirror image, and leaves the document without a live entry |
| `LedgerRuns.ChainParity` | backend/src/accounting/posting.service.ts:217-319 | along a chain of reversals of reversals the net effect depends only on how many there are |
| `YearEnd.CloseExactly` | backend/src/accounting/ledger.service.ts:89-216 | a year closes if and only if it is open and has nothing to empty, or has a net income other than zero and a postable retained-earnings account |
| `YearEnd.DraftsBlockClosing` | backend/src/accounting/ledger.service.ts:89-140 | in any state an open year is refused for its drafts if and only if it has one |
| `YearEnd.BreakEvenYearIsRefused` | backend/src/accounting/ledger.service.ts:184-188 | activity that nets to nothing makes the closing fail on its one-sided line |
| `BreakEven.BarterYearCannotClose` | backend/src/accounting/ledger.service.ts:184-188 | a new company with one balanced entry and no income whose year cannot be closed on any day |
| `YearEnd.CloseMovesIncome` | backend/src/accounting/ledger.service.ts:141-200 | closing takes every revenue and expense account of the year to zero and moves exactly revenue less expense into retained earnings, and nothing else anywhere |
| `YearEnd.CloseStandsOnLastDay` | backend/src/accounting/ledger.service.ts:198 | the closing entry is dated the last day of the year: over any range of dates a figure changes only if the range holds that day, and then by minus the year's net on a revenue or expense account, by minus the income on retained earnings and by nothing elsewhere |
| `YearEnd.DriftIsUnclosedIncome` | backend/src/accounting/ledger.service.ts:317-327 | the drift the opening checks for is exactly the income left in revenue and expense accounts |
| `YearEnd.DriftNeverFires` | backend/src/accounting/ledger.service.ts:317-327 | if every year that ended by the previous year's end is closed the opening lines balance |
| `YearEnd.OpenExactly` | backend/src/accounting/ledger.service.ts:247-345 | an opening succeeds exactly when the year is open, the previous year is closed, and either nothing is carried or no income is unclosed and there is no opening entry yet |
| `YearEnd.CumulativeIsSumOfYears` | backend/src/accounting/ledger.service.ts:284-297 | at a year boundary a cumulative figure is the sum of the figures of the years before it |
| `YearEnd.OpeningSetsYearFigures` | backend/src/accounting/ledger.service.ts:218-246 | after an opening an account's figure for the year is its balance at the end of the previous year plus the year's own movement |
| `YearEnd.OpeningDoublesCumulative` | backend/src/accounting/ledger.service.ts:284-345 | from the first day of the year on, an opening adds the balance it carries to every cumulative figure of the account, and to its cached balance, once more |
| `Openings.OpeningCarriesOnce` | backend/src/accounting/ledger.service.ts:284-315 | an opening carries the account's balance in the journal with all earlier openings and their reversals struck out, if and only if those left nothing on it by that day |
| `Openings.OpeningNetIsStanding` | backend/src/accounting/ledger.service.ts:284-315 | what openings and their reversals leave on an account is exactly what the openings still standing put there, those reversed an even number of times along their chain |
| `Openings.StandingOpeningsRepeat` | backend/src/accounting/ledger.service.ts:284-315 | when each reversal of an opening falls on the same side of the day as what it reverses, an account is carried right if and only if the standing openings put nothing on it |
| `Openings.SecondOpeningCountsTwice` | backend/src/accounting/ledger.service.ts:247-345 | an ordinary run of a new company after which the opening of the third year succeeds and carries 200 of cash where the business has 100 |
| `Reports.TrialBalanceBalances` | backend/src/accounting/ledger.service.ts:406-468 | in every reachable ledger and for any dates the trial balance has equal totals in both pairs of columns |
| `Reports.RowsAreMovedAccounts` | backend/src/accounting/ledger.service.ts:414-440 | the trial balance has exactly one row for each account that moved |
| `Reports.BalanceSheetBalances` | backend/src/accounting/ledger.service.ts:571-611 | in every reachable ledger, as of any day, assets equal liabilities plus equity plus net income, and the five types part the rows |
| `Reports.SheetShowsKinds` | backend/src/accounting/ledger.service.ts:571-611 | in every reachable ledger and for any day, total assets are the net of the accounts of that kind, total liabilities and equity minus the net of theirs, and each list holds one row for every moved account of its kind and no other |
| `Reports.StatementShowsKinds` | backend/src/accounting/ledger.service.ts:551-569 | the two totals of the income statement are minus the net of the revenue accounts and the net of the expense accounts, and the lists hold their moved accounts once each |
| `Reports.StatementShowsYearIncome` | backend/src/accounting/ledger.service.ts:551-569 | the income statement over a year's own dates shows exactly the income its closing will move |
| `Reports.ClosedYearShowsNoIncome` | backend/src/accounting/ledger.service.ts:73-82 | once a year is closed its income statement shows nothing, for the rest of the run |
| `LedgerService.Ledger.constructor` | backend/src/database/seed.ts:108 | a company starts from a chart of distinct accounts with empty books, which is sound |
| `LedgerService.Ledger.CreateAccount` | backend/src/accounting/accounting.service.ts:34-44 | the rows after the call are those of the transition on values, and a sound ledger stays sound |
| `LedgerService.Ledger.CreateFiscalYear` | backend/src/accounting/ledger.service.ts:40-66 | a year is added exactly when its range is valid and overlaps no other; soundness is kept |
| `LedgerService.Ledger.PostIn` | backend/src/accounting/posting.service.ts:57-180 | checks, numbering, balances and lines written in place give exactly the transition on values, with the same error for every refusal |
| `LedgerService.Ledger.Totals` | backend/src/accounting/posting.service.ts:115-122 | the balance check adds up each side of all lines |
| `LedgerService.Ledger.WriteLines` | backend/src/accounting/posting.service.ts:155-177 | the loop moves each account by its lines, or reports the first line at fault and changes nothing |
| `LedgerService.Ledger.Reverse` | backend/src/accounting/posting.service.ts:217-265 | the reversal in place is the transition on values, rolled back when the original's year is closed |
| `LedgerService.Ledger.ReverseBySource` | backend/src/accounting/posting.service.ts:274-319 | the live entry of a document is reversed, and a document without one is passed over |
| `LedgerService.Ledger.CloseFiscalYear` | backend/src/accounting/ledger.service.ts:89-216 | the closing loop builds the lines and the income of the transition on values, and posts and marks the year together or not at all |
| `LedgerService.Ledger.OpenFiscalYear` | backend/src/accounting/ledger.service.ts:247-345 | the opening in place is the transition on values |
| `PostingRules.SaleEntry` | backend/src/accounting/posting-rules.ts:83-157 | the tender loop and the pushes give the lines of a sale |
| `PostingRules.SaleBooks` | backend/src/accounting/posting-rules.ts:83-157 | what a sale does to every account: 1101, 1102 and 1105 take what was paid in cash, through the bank and by cheque, 1103 the rest of the total, and 4101, 4102, 2103, 4106 and 5299 the goods, the discount, the tax, the freight and the deduction, each on its own side; no other account moves |
| `PostingRules.ReceiptsMakeTotal` | backend/src/accounting/posting-rules.ts:97-121 | money, ration claims and credit together always come to the invoice total |
| `PostingRules.SalePostsExactly` | backend/src/accounting/posting-rules.ts:73-157 | a sale entry is accepted by the ledger if and only if the invoice adds up, no amount is negative and the buyer did not pay more than the total |
| `Depreciation.AmountInCents` | backend/src/assets/assets.service.ts:221-245 | the rounded amount of a month is the nearest cent of the formula, and never more than what remains |
| `Depreciation.StraightLineAfter` | backend/src/assets/assets.service.ts:236-245 | k months write off k monthly rates more than before, or everything that remains, from any state of a straight-line asset |
| `Depreciation.StraightLineNeverEnds` | backend/src/assets/assets.service.ts:278-279 | an asset whose monthly rate rounds to nothing is never depreciated at all |
| `Depreciation.StraightLineEnds` | backend/src/assets/assets.service.ts:277-321 | with at least N(N+1)/2 cents to write off over N months the asset is fully depreciated after exactly N or N+1 charges, and which of the two |
| `Depreciation.DecliningHalves` | backend/src/assets/assets.service.ts:236-245 | half the useful life at least halves what the book value has above N/2 cents |
| `Depreciation.DecliningEnds` | backend/src/assets/assets.service.ts:236-245 | a declining balance always ends, within a stated number of months, fully written off or resting below N/4 cents for good |
| `AssetRuns.RegisterAgreesWithLedger` | backend/src/assets/assets.service.ts:423-435 | over any run the total book value equals the net of accounts 1201 and 1202 from the entries of asset documents, reversals of such entries not counted, if and only if no live asset has a negative price |
| `AssetRuns.AccumulatedIsSumOfRows` | backend/src/assets/assets.service.ts:281-317 | over any run each asset's accumulated amount is the sum of its rows, one row per period, within its bounds |
| `AssetCharges.RunChargesExactly` | backend/src/assets/assets.service.ts:253-320 | a successful run gives an asset a row for the period if and only if it is active, has a method and a positive life, has no row for the period, went into service by then or has no date, and is due a positive amount; every other asset stays as it was |
| `AssetCharges.RunPostsWhatItWritesOff` | backend/src/assets/assets.service.ts:320-369 | what a run posts to the expense and the accumulated account is the sum of the amounts it adds to the assets |
| `AssetCharges.NeverChargedBeforeService` | backend/src/assets/assets.service.ts:265-272 | over any run no asset has a row for a period before its in-service date |
| `AssetCharges.PurchaseDoes` | backend/src/assets/assets.service.ts:100-173 | a purchase adds the price to account 1201 and takes it from the account it was paid from |
| `AssetCharges.DisposalDoes` | backend/src/assets/assets.service.ts:376-421 | a disposal empties the asset's cost and accumulated amount, brings in the proceeds and shows the difference to the book value as gain or loss |
| `AssetKeys.RunDepreciationExactly` | backend/src/assets/assets.service.ts:322-369 | a depreciation run goes through if and only if nothing is due, or no ledger is kept, or the period is in an open year, 5205 and 1202 take postings and no live entry of the period bears the number that counting the live ones gives |
| `AssetSupplements.ReversalBlocksSupplement` | backend/src/assets/assets.service.ts:350-368 | in any reachable company, the first reversal of one of a period's entries makes the next supplementary run ask for a number in use if and only if the entry reversed was not the last |
| `AssetSupplements.SupplementCanBeRefused` | backend/src/assets/assets.service.ts:326-368 | a concrete shop where the month's supplement is refused as a duplicate after its first entry was reversed, and accepted after its second was |
| `AssetSupplements.NegativePriceStays` | backend/src/assets/assets.service.ts:155-169 | a concrete shop takes an asset in at a negative price: nothing is posted, the register differs from the ledger by it, and it cannot be disposed of |
| `AssetRuns.RepeatedRunIsIdle` | backend/src/assets/assets.service.ts:248-252 | running the same month again changes nothing |
| `AssetKeys.RunKeepsKeys` | backend/src/assets/assets.service.ts:100-173 | over any run purchase keys belong to assets in the table and disposal keys to assets that are gone, so the next ones are free |
| `AssetKeys.CreateExactly` | backend/src/assets/assets.service.ts:100-173 | a purchase goes through if and only if it has no positive price, or its day is in an open year and both its accounts take postings |
| `AssetKeys.DisposeExactly` | backend/src/assets/assets.service.ts:376-421 | a disposal goes through if and only if the asset is still there, neither its price nor the proceeds are negative, and, where there is anything to post, today is in an open year and the accounts that get an amount take postings |
| `AssetSchedules.StraightLineInRegister` | backend/src/assets/assets.service.ts:253-373 | from any moment on, new or revised, a straight-line asset with between n - 1 and n rates to write off is charged for at most n more months, and is fully depreciated exactly when it has had them, whatever happens to other assets |
| `AssetSchedules.WrittenOffOnTime` | backend/src/assets/assets.service.ts:253-373 | a new straight-line asset with at least N(N+1)/2 cents to write off takes exactly N or N+1 months in the register, and which of the two |
| `AssetSchedules.DecliningInRegister` | backend/src/assets/assets.service.ts:253-373 | a declining balance is charged for at most a stated number of months in the register, and after them is written off or rests below N/4 cents |
| `AssetService.AssetRegister.Create` | backend/src/assets/assets.service.ts:100-173 | the asset and its entry are written together, as the transition on values |
| `AssetService.AssetRegister.RunDepreciation` | backend/src/assets/assets.service.ts:253-373 | the run's loop charges every asset and posts one entry for the total, as the transition on values |
| `AssetService.AssetRegister.Dispose` | backend/src/assets/assets.service.ts:376-421 | status and entry change together, as the transition on values |
| `AssetService.AssetRegister.PostAuto` | backend/src/accounting/posting.service.ts:195-209 | nothing is posted without lines or without a ledger; otherwise it is a posting |
| `NumberWords.PrintTriplet` | backend/src/common/number-words.ts:49-67 | the pushes give the words of a group of three digits |
| `NumberWords.SplitGroups` | backend/src/common/number-words.ts:88-94 | the division loop gives the groups of three digits |
| `NumberWords.PrintGroups` | backend/src/common/number-words.ts:96-107 | the loop gives the spoken groups from the highest down, leaving out empty ones |
| `NumberWords.PrintNumber` | backend/src/common/number-words.ts:74-108 | the printer gives the spelling, or the same error for every number it refuses |
| `SpokenAmounts.TokensReadBack` | backend/src/common/number-words.ts:49-108 | the words printed for n, read one by one, are worth n |
| `SpokenLists.ParseUndoesPrint` | web/lib/price-speech.ts:84-120 | for every n up to 999,999,999,999 parsing the split printed words gives n |
| `SpokenLists.SpellingIsInjective` | backend/src/common/number-words.ts:74-108 | no two supported amounts are spelled alike |
| `SpokenLists.ListRoundTrip` | web/lib/price-speech.ts:152-218 | scanning the printed text of any list of supported amounts gives the positive ones back in order, all in rials |
| `SpokenUnits.AmountsAreHeard` | web/lib/price-speech.ts:131-218 | in any text of numbers with other words between them the positive ones come out in order, each in the unit named by the two words before and the three behind it, in rials as said or times ten, with the warnings that apply |
| `SpokenPrices.PricesAreRead` | web/lib/price-speech.ts:152-218 | any list of numbers in words with a toman or rial word behind each is read in order with the unit said, except that a toman word near a rial price wins |
| `SpokenPrices.OwnUnitExactly` | web/lib/price-speech.ts:131-203 | every price of such a list comes out in its own unit if and only if no positive rial price stands right behind a toman price or right before a toman price whose number is one word |
| `SpokenPrices.TomansAreRead` | web/lib/price-speech.ts:63-203 | any list of prices in tomans, with any of the three words, gives each figure in order and ten rials to the toman |
| `SpokenPrices.RialBehindToman` | web/lib/price-speech.ts:186-203 | a concrete pair of prices whose rials are read as tomans |
| `SpokenPrices.ApartIsRead` | web/lib/price-speech.ts:186-203 | with three words or more between the numbers and units only right behind them, each amount of a mixed list has its own factor |
| `SpokenPrices.UnnamedIsToman` | web/lib/price-speech.ts:122-135 | where no unit is named every amount is taken for tomans and warned about |
| `SpokenPrices.LoneNumberIsToman` | web/lib/price-speech.ts:152-218 | the printed words of a number alone give ten times the number with that warning |
| `SpokenFigures.TagsAreRead` | web/lib/price-speech.ts:70-120 | any list of toman prices in figures, in Latin, Persian or Arabic digits, with thousands marks or without, and times a scale word, is read in order |
| `PriceSpeech.ParseWordNumber` | web/lib/price-speech.ts:84-120 | the loop with its early return computes the value of the words |
| `PriceSpeech.ExtractAmounts` | web/lib/price-speech.ts:152-218 | the two nested loops extract exactly the amounts of the specification |
| `PriceSpeech.BlocksPartitionNumbers` | web/lib/price-speech.ts:152-218 | on any text the blocks read are in order, disjoint, bounded by numeric words and together hold every numeric word |
| `QuoteMatching.SuggestQuotes` | web/lib/price-speech.ts:242-314 | product by product, the first word of a name with an amount after it that no earlier name took gives the first such amount; the products left over then take the amounts left over, in order, and none is left while a product has nothing |
| `QuoteMatching.SuggestionIsDetermined` | web/lib/price-speech.ts:262-312 | those rules leave exactly one suggestion for any products and amounts |
| `QuoteText.QuotesFor` | web/lib/price-speech.ts:242-316 | from a transcript and the names of the products, each product is shown with the amount of the one suggestion that names and order allow |
| `QuoteText.EachGetsItsOwn` | web/lib/price-speech.ts:230-299 | in a call that says each name right before its price, names that are part of no other word, every product gets the price said after its own name, in whatever order the products are listed, none is guessed, and tomans come to ten rials each |
| `QuoteText.RiceIsQuoted` | web/lib/price-speech.ts:235 | the example of the documentation, for every supported number: "rice" and a price in tomans, for a product whose name begins with that word, quotes that price |
| `QuoteMatching.FindUnused` | web/lib/price-speech.ts:275-278 | the first unused amount that fits is taken |
| `Jalali.ThirtyThreeYearRule` | backend/src/common/jalali.ts:11-19 | the leap years of the calendar are the eight of the 33-year rule |
| `Jalali.KnownDays` | backend/src/common/jalali.ts:43-66 | the calendar stands where it should: seven days of 2026 around Nowruz and the borders of the quarters |
| `Jalali.SearchFromJalali` | backend/src/common/jalali.ts:110-140 | the search loop, nearest days first and the earlier of two first, computes the specification |
| `Jalali.FromJalaliExactly` | backend/src/common/jalali.ts:110-140 | the search finds a date if and only if it exists and its Nowruz is at most six days from 20 March, and then finds its day |
| `Jalali.YearsAreReachable` | backend/src/common/jalali.ts:114-117 | the search reaches every year from 1 to 50,000 |
| `Jalali.ConversionsAreInverse` | backend/src/common/jalali.ts:50-140 | the two conversions are mutual inverses on all days and dates of those years |
| `Jalali.MonthLengthExactly` | backend/src/common/jalali.ts:142-156 | asking whether 30 Esfand exists gives the leap rule, and so the month lengths |
| `Jalali.AddMonthsExactly` | backend/src/common/jalali.ts:177-184 | adding months lands in the right month, on the same day or the last one, and never fails on a missing day |
| `Jalali.AddMonthsNeverGrows` | backend/src/common/jalali.ts:177-184 | whenever a date comes out at all it is in the right month and its day has not grown |
| `Jalali.AddMonthsBeforeYearZero` | backend/src/common/jalali.ts:179-181 | before year zero the truncating remainder makes the month invalid |
| `Jalali.AddThenSubtract` | backend/src/common/jalali.ts:173-176 | going months on and back returns to the day if and only if it was not cut off |
| `Jalali.QuarterHoldsItsDays` | backend/src/common/jalali.ts:198-213 | there are four quarters and no fifth, and a day is in the half-open range of a quarter if and only if that is its quarter |
| `Jalali.QuartersTile` | backend/src/common/jalali.ts:188-207 | the four ranges follow on without gap or overlap from one Nowruz to the next |
| `JournalTemplates.AssertBalanced` | backend/src/accounting/journal-template.service.ts:220-252 | accepts exactly the well-formed line lists, and otherwise names the first faulty line or the imbalance |
| `JournalTemplates.StoredTemplatesAreSound` | backend/src/accounting/journal-template.service.ts:18-22 | a stored template is never refused by the ledger for its own lines |
| `JournalTemplates.GenerateExactly` | backend/src/accounting/journal-template.service.ts:141-211 | generation succeeds exactly when the template is active and the ledger accepts the entry: never a missing day |
| `JournalTemplates.GenerateIssues` | backend/src/accounting/journal-template.service.ts:167-203 | a successful call posts one entry with the template's own lines, for its period and on its date, and moves the due date on by the step |
| `JournalTemplates.ScheduleHolds` | backend/src/accounting/journal-template.service.ts:141-211 | over any run with due dates only, a scheduled template's entries start at its due date and follow each other at exactly its step of Jalali months, the day never growing |
| `JournalTemplates.ScheduleIsProgression` | backend/src/accounting/journal-template.service.ts:30-35 | the months of a schedule form an arithmetic progression |
| `JournalTemplates.PeriodsDiffer` | backend/src/accounting/journal-template.service.ts:24-28 | no two entries of a schedule share a period |
| `JournalTemplates.EntriesStepByName` | backend/src/accounting/journal-template.service.ts:42-46 | over any run with due dates only, each entry of a monthly template lies in the month after the one before it, of a quarterly one in the next quarter, and of a yearly one in the same month of the next year |
| `ScheduleStalls.NeverInItsOwnWay` | backend/src/accounting/journal-template.service.ts:158-163 | through any run a template that keeps to its due dates is never refused as already issued, if none of its live entries stood in a month its schedule would come to |
| `ScheduleStalls.NewTemplateIsNeverRefused` | backend/src/accounting/journal-template.service.ts:158-163 | in particular a template that has issued nothing yet is never refused as already issued while it keeps to its due dates |
| `ScheduleStalls.HandDateExactly` | backend/src/accounting/journal-template.service.ts:141-211 | after a date given by hand, the next call without one is refused as already issued if and only if its due day is in an open year and a live entry already has the month a step after that date |
| `ScheduleStalls.StallLasts` | backend/src/accounting/journal-template.service.ts:158-163 | a live entry in a month the schedule comes to holds it there: through any run without dates given by hand the due month never passes it, and once due there every call is refused, until the entry is reversed |
| `ScheduleStalls.HandDateStalls` | backend/src/accounting/journal-template.service.ts:141-211 | a concrete run from empty books that stalls: one entry on its due date, one dated by hand a month earlier |
| `JournalTemplates.TemplateService.Create` | backend/src/accounting/journal-template.service.ts:79-121 | a template is stored exactly when title and description are not blank, the frequency is known, a scheduled one has its due date and the lines are well formed; otherwise the first thing wrong decides the error |
| `JournalTemplates.TemplateService.SetActive` | backend/src/accounting/journal-template.service.ts:123-131 | only the flag of an existing template changes |
| `JournalTemplates.TemplateService.Issue` | backend/src/accounting/journal-template.service.ts:141-211 | posting and moving the due date happen together, as the transition on values |
| `Categories.Descendants` | backend/src/categories/categories.service.ts:154-163 | the recursive query ends and gives exactly the categories below the given one |
| `Categories.UpdateKeepsForest` | backend/src/categories/categories.service.ts:83-94 | a move the checks let through cannot close a cycle |
| `Categories.CycleCheckIsExact` | backend/src/categories/categories.service.ts:83-94 | a move to another existing category is let through if and only if the result is a forest |
| `Categories.CreateKeepsForest` | backend/src/categories/categories.service.ts:78-81 | a new category keeps the forest |
| `Categories.RemoveKeepsForest` | backend/src/categories/categories.service.ts:103-129 | a removal that is not blocked keeps the forest |
| `Categories.AlwaysAForest` | backend/src/categories/categories.service.ts:78-129 | after any sequence of creations, moves, removals and product changes the parents form a forest |
| `CategoryTree.BuildTree` | backend/src/categories/categories.service.ts:53-75 | nodes linked in place show exactly the tree of the rows, at every depth |
| `CategoryTree.LinkOne` | backend/src/categories/categories.service.ts:65-73 | one step pushes a node onto its parent, or onto the roots if the parent cannot be seen |
| `CategoryTree.MakeNodes` | backend/src/categories/categories.service.ts:53-61 | one node per row, without children |
| `CategoryTree.TreeShowsRootedRowsOnce` | backend/src/categories/categories.service.ts:65-73 | each row whose parents end stands exactly once in the tree, and a row on a cycle never |
| `CategoryTree.TreeIsComplete` | backend/src/categories/categories.service.ts:42-76 | in a forest every row stands exactly once and the product counts add up to all of them |
| `CategoryTree.CategoryService.Create` | backend/src/categories/categories.service.ts:78-81 | the table after the call is that of the transition, and a forest |
| `CategoryTree.CategoryService.Update` | backend/src/categories/categories.service.ts:83-94 | the table after the call is that of the transition, the cycle check by query included, and a forest |
| `CategoryTree.CategoryService.Remove` | backend/src/categories/categories.service.ts:103-129 | the table after the call is that of the transition, and a forest |
| `CategoryTree.CategoryService.ListTree` | backend/src/categories/categories.service.ts:42-76 | the tree listed from any table kept by the service holds every row once and every product |
| `QueuePlaces.RunKeepsInv` | web/lib/offline-queue.ts:84-202 | over any run, with any clock and sign-outs in the middle of a flush, no key is queued twice, no record is lost, nothing is anywhere that was not queued and no stored record has five attempts |
| `QueuePlaces.FlushOnceExactly` | web/lib/offline-queue.ts:159-190 | a flush leaves every record in one place if and only if each record it comes to is still stored when its sending ends |
| `QueuePlaces.OncePerRunExactly` | web/lib/offline-queue.ts:84-202 | over any run every record is in exactly one place if and only if none was ever cleared on its way |
| `QueueOrder.SigningOutStopsNothing` | web/lib/offline-queue.ts:159-190 | what a flush sends depends on its list and the answers alone, so a record cleared meanwhile is still sent |
| `QueueOrder.NewKeysAreNewcomers` | web/lib/offline-queue.ts:150-202 | what a flush adds to the store are exactly the writes that arrived during the sendings it came to and that no later sign-out listed |
| `QueueOrder.FlushOrderExactly` | web/lib/offline-queue.ts:150-190 | a flush keeps the order if and only if each such newcomer is no older than any write of its user sent before or sent by that flush, which list, events and answers decide beforehand |
| `QueueOrder.OrderPerRunExactly` | web/lib/offline-queue.ts:84-202 | over any run the order holds throughout if and only if every new write comes in time in that sense |
| `QueueOrder.SteadyIsTimely` | web/lib/offline-queue.ts:84-118 | a clock that never goes back brings every write in time, ties and sign-outs included |
| `QueueOrder.QueueIsFaithful` | web/lib/offline-queue.ts:84-202 | in any run from an empty queue nothing is lost, each record is in one place if and only if none was cleared on its way, and each user's writes leave oldest first if and only if every write comes in time |
| `QueuePlaces.OthersUntouched` | web/lib/offline-queue.ts:159-202 | flushing or clearing one user's records leaves every other record as it is, unless its own user signs out meanwhile |
| `QueueDrains.QuietFlushLeaves` | web/lib/offline-queue.ts:166-187 | an undisturbed flush leaves exactly the list without what was sent or given up |
| `QueueFates.FlushFates` | web/lib/offline-queue.ts:159-190 | a flush sends what is accepted and gives up what is refused with a status from 400 to 499 other than 408 and 429 or fails the fifth time, in order, up to the first other error, whose record stays with one attempt more |
| `QueueDrains.QueueDrains` | web/lib/offline-queue.ts:138-147 | k waiting records of a user are gone after 5k undisturbed flushes, whatever the network answers |
| `QueueOrder.ClockJumpBreaksOrder` | web/lib/offline-queue.ts:88-114 | a concrete clock that jumps back during a sending, where the write does not come in time and an older record is left behind |
| `QueueOrder.ClearedRecordReturns` | web/lib/offline-queue.ts:128-187 | a record a flush comes to is stored at its end if and only if its sending ended with an error worth another try, cleared meanwhile or not, and a cleared one is in two places from then on |
| `QueueOrder.ClearedOnItsWay` | web/lib/offline-queue.ts:159-202 | a queue of one record whose user signs out during its sending: it is back after a failure, and sent after an acceptance |
| `OfflineQueue.Queue.Enqueue` | web/lib/offline-queue.ts:84-104 | a record is added exactly when somebody is signed in and the key is new |
| `OfflineQueue.Queue.Pending` | web/lib/offline-queue.ts:107-118 | exactly the user's records, oldest first |
| `OfflineQueue.Queue.Flush` | web/lib/offline-queue.ts:159-190 | the loop does what the transition on values does, and counts what was sent, given up and left |
| `OfflineQueue.Queue.ClearMine` | web/lib/offline-queue.ts:199-202 | exactly the user's records are cleared |
| `Ean13.CheckDigit` | web/lib/barcode.ts:35-43 | the digit that makes the weighted sum a multiple of ten |
| `Ean13.SingleErrorIsFound` | web/lib/barcode.ts:35-43 | any single changed digit is noticed |
| `Ean13.SwapIsFound` | web/lib/barcode.ts:35-43 | swapped neighbours are noticed if and only if they differ and not by five |
| `Ean13.DrawPattern` | web/lib/barcode.ts:46-62 | the two loops give the 95 modules of the specification |
| `Ean13.DecodesToItself` | web/lib/barcode.ts:14-62 | every thirteen digits are read back from their 95 modules |
| `Code128.DrawPattern` | web/lib/barcode.ts:98-113 | the loop gives start, values, check value and stop |
| `Code128.ChecksOutExactly` | web/lib/barcode.ts:103-111 | a symbol satisfies its own check if and only if the extra weight of characters after skipped ones is a multiple of 103 |
| `Code128.PrintableTextChecksOut` | web/lib/barcode.ts:98-113 | it always does when nothing that weighs follows a skipped character |
| `Code128.SkippedCharacterBreaksCheck` | web/lib/barcode.ts:105-108 | a Persian letter before an A breaks the check |
| `Code128.DecodesToValues` | web/lib/barcode.ts:66-113 | reading a symbol back gives its printable characters exactly when it checks out |
| `Code128.PrintableTextDecodes` | web/lib/barcode.ts:98-113 | a text over the characters 32 to 126 is read back whole |
| `Modules.DrawBars` | web/lib/barcode.ts:152-168 | the bars drawn are exactly the maximal runs of dark modules, in order, and paint the symbol |
| `Barcode.WrongCheckDigitIsReplaced` | web/lib/barcode.ts:139-143 | thirteen digits are drawn as they are if and only if their check digit is right |
| `Barcode.DrawnAs` | web/lib/barcode.ts:128-168 | a text of twelve or thirteen digits is drawn so that it reads its first twelve digits and the check digit they call for, and every other text in Code 128 as it is |
| `Barcode.WrongDigitVanishes` | web/lib/barcode.ts:139-143 | whatever is drawn for 4006381333932 reads 4006381333931 |
| `Barcode.Draw` | web/lib/barcode.ts:128-168 | twelve or thirteen digits give a readable EAN-13 with its own check digit, any other text its Code 128 symbol, an empty one nothing |
| `Budget.CeilingHolds` | backend/src/budget/commitment.service.ts:20-58 | over any run committed is the sum of the open commitments, spent the sum of the settled ones, and together they stay under the allocation and that under the approval |
| `Budget.CommitExactly` | backend/src/budget/commitment.service.ts:97-174 | in any budget that can come about, a commitment is taken if and only if it is positive, fits under the ceiling beside the sum of the open and settled ones, and its document has none open |
| `Budget.AllocateExactly` | backend/src/budget/commitment.service.ts:342-374 | in any budget that can come about, an allocation is accepted if and only if it covers the sum of the open and settled commitments and stays within the approval |
| `Budget.CreateLineExactly` | backend/src/budget/commitment.service.ts:299-340 | in any budget that can come about a new line is taken exactly when it is not negative and allotted no more than approved, nothing else changes, and all of what is allotted or approved can then be committed |
| `Budget.SettleExactly` | backend/src/budget/commitment.service.ts:186-241 | in any budget that can come about, settling succeeds exactly for an open commitment and an amount above zero and not above it; zero passes the service and is refused by the table, and the other faults have their own errors |
| `Budget.PromiseComesBack` | backend/src/budget/commitment.service.ts:176-275 | whatever happens after a commitment, as long as it is open it can be settled at any amount up to it, giving back exactly the part not spent, or released, giving back all of it, and no other line moves |
| `Budget.ClosedForGood` | backend/src/budget/commitment.service.ts:202-204 | a settled or released commitment never changes again |
| `BudgetService.Service.CreateLine` | backend/src/budget/commitment.service.ts:299-340 | the line is added as in the transition, under the ceiling rule |
| `BudgetService.Service.Commit` | backend/src/budget/commitment.service.ts:97-174 | the update in place is the transition on values and keeps the invariant |
| `BudgetService.Service.Settle` | backend/src/budget/commitment.service.ts:186-241 | the update in place is the transition on values and keeps the invariant |
| `BudgetService.Service.Release` | backend/src/budget/commitment.service.ts:244-275 | the update in place is the transition on values and keeps the invariant |
| `BudgetService.Service.Allocate` | backend/src/budget/commitment.service.ts:350-374 | the update in place is the transition on values and keeps the invariant |
| `Freight.AllocateFreight` | backend/src/accounting/posting-rules.ts:833-858 | the shares array, its last cell overwritten, is that of the specification, and a positive freight is spread over it without losing a cent |
| `Freight.ShareIsNearest` | backend/src/accounting/posting-rules.ts:850-852 | each share but the last is within half a cent of its exact proportion |
| `Freight.LastShareIsNear` | backend/src/accounting/posting-rules.ts:854-857 | the last share is at most (n-1)/2 cents below its exact proportion and less than that above it |
| `Freight.SharesFollowValue` | backend/src/accounting/posting-rules.ts:822-852 | among the items before the last a dearer one never gets less |
| `Freight.LastAgainstEarlier` | backend/src/accounting/posting-rules.ts:822-857 | the last item gets less, or more, than an earlier one exactly as the rounding of all the others weighs against what it is worth more; without value it gets less if and only if the equal part rounds up |
| `Freight.DearerLastGetsLess` | backend/src/accounting/posting-rules.ts:822-857 | five items and three cents where the last is worth twice each of the others and gets less than any |
| `Freight.SharesAreNonNegative` | backend/src/accounting/posting-rules.ts:850-857 | for goods with value no share but the last is negative, and the last is not if its exact share is at least (n-1)/2 cents |
| `Freight.WorthlessGoodsShareAlike` | backend/src/accounting/posting-rules.ts:842-848 | without value every share but the last is the nearest cent to an equal part |
| `Freight.LastShareWithValue` | backend/src/accounting/posting-rules.ts:850-857 | with value, the last share is its exact proportion less what rounding, by remainders, added to the others |
| `Freight.LastShareWithoutValue` | backend/src/accounting/posting-rules.ts:842-857 | without value, the last share is the whole part and the remainder, less a cent for each other item when the equal part rounds up |
| `Freight.LastShareNegativeExactly` | backend/src/accounting/posting-rules.ts:833-858 | for any totals and any freight the last share is negative if and only if rounding adds more to the others than it is due, or, without value, the equal part rounds up and too little is left |
| `Freight.LastShareCanBeNegative` | backend/src/accounting/posting-rules.ts:842-857 | one input with value and one without whose last share is minus a cent |
| `Freight.LastShareFallsShort` | backend/src/accounting/posting-rules.ts:854-857 | for every number of items there are totals where the last share falls the whole (n-1)/2 cents short |
| `Lockout.NoWindowHoldsEleven` | backend/src/auth/auth.service.ts:328-360 | in every run in time order any eleven compared wrong passwords in a row span fifteen minutes or have a recorded success among them |
| `Lockout.LongAddressNeverLocks` | backend/src/auth/auth.service.ts:151-163 | an address of more than 200 characters is never locked |
| `Lockout.LongAddressTakesAll` | backend/src/auth/auth.service.ts:341-350 | for such an address any number of wrong passwords is compared at one moment |
| `Lockout.LockedTellsNothing` | backend/src/auth/auth.service.ts:173-182 | two series of passwords tried at the same moments of a lock leave the same account behind, every try is refused and the lock is not prolonged |
| `Lockout.SecondStepIgnoresLock` | backend/src/auth/auth.service.ts:456-501 | while an account is locked any number of wrong codes is compared and recorded at the second step, and a right one signs in and lifts the lock, although the right password is refused |
| `Lockout.LockedAccountOpensByCode` | backend/src/auth/auth.service.ts:456-501 | ten wrong passwords bring such an account about, and a right code opens it at once |
| `Lockout.LockIsTemporary` | backend/src/auth/auth.service.ts:121-131 | no sequence of attempts locks an account for more than fifteen minutes after the last of them |
| `SignIns.WrongPasswordLocksExactly` | backend/src/auth/auth.service.ts:328-360 | a wrong password locks an open account, for fifteen minutes, if and only if with it the address has ten failures in fifteen minutes with no success at or after the first of them |
| `SignIns.NoEntryWithoutCode` | backend/src/auth/auth.service.ts:210-232 | with the second factor on, or the account out of use, no series of passwords, government identities and wrong codes signs in or lifts a lock, and each is recorded as a failure |
| `SignIns.PendingStepsCount` | backend/src/auth/auth.service.ts:210-232 | right passwords waiting for their code count: a single wrong one after n of them locks the account exactly when n is nine or more |
| `AuthService.Account.RecordAttempt` | backend/src/auth/auth.service.ts:145-167 | an attempt is appended with at most 200 characters of the address |
| `AuthService.Account.MaybeLock` | backend/src/auth/auth.service.ts:328-360 | the lock is set exactly when the failures counted reach the threshold |
| `AuthService.Account.FinalizeLogin` | backend/src/auth/auth.service.ts:242-257 | a success is recorded and the lock lifted |
| `AuthService.Account.Login` | backend/src/auth/auth.service.ts:169-232 | the lock is looked at first, then the password, the status and the second factor, as in the transition |
| `AuthService.Account.MfaVerify` | backend/src/auth/auth.service.ts:456-501 | a right code signs in, a wrong one is recorded and may lock |
| `AuthService.Account.LoginWithGovIdentity` | backend/src/auth/auth.service.ts:278-306 | the government sign-in respects the lock and the second factor |

## Left out

- Floating point: amounts are exact cents and exact reals, so rounding errors of sums in `number` are not modelled.
- Concurrency: transactions run one after the other; row locks and retries of a clashing entry number are not modelled.
- The database itself: SQL text, the pool, row-level security, controllers, guards and other companies' rows.
- Account edits and deletions: `updateAccount` may change a type and `removeAccount` may delete a row; types are fixed here.
- Drafts: nothing in the modelled services creates one, so in a reachable ledger the draft guard never fires.
- Assets: raw edits of `status` and `salvageValue`; editing the useful life or the method is modelled as `Revise`.
- The other entry builders (purchases, returns, payroll, cash boxes): straight-line code like the sale and asset entries.
- Jalali.YearsAreReachable: after the year 1501 the calendar is the 33-year rule, which ICU need not follow there.
- The calendar inside ICU, time zones and offsets: dates are whole Tehran days, and ICU is taken to follow the 33-year rule.
- `toTehranDateString`, `formatJalali`, `decorate`, lists and feeds: output only.
- Price speech: words that name properties every JavaScript object has (such as `constructor`) are not in the dictionaries here.
- Quotes: product identifiers, and the warnings added to a guessed price; lengths of words count characters, not UTF-16 units.
- Categories: names, their uniqueness among siblings, and the other columns of the row.
- The offline queue's storage never fails here; a failed delete would send a record again.
- Bar codes: millimetres and the text of the SVG; the value is taken already trimmed.
- Budget: `allocate` reads and writes without a lock, so it is one step here; the text of messages.
- Lockout: writing an attempt or a lock never fails here; password hashing, tokens and codes are parameters.
- User interface, payment gateways, speech recognition, CRM, contracts, cash boxes, attendance and statistics are not part of this model.
