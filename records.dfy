/** The price-table entities shared by the fee resolver, the price table and the fee matrix. */
module Records {
  import opened Wrappers

  /**
   * One row of the price table. `readonly` marks a frozen (archived) record;
   * `year` and `price` are the integers the source obtains with `parseInt`.
   */
  datatype FeeRecord = FeeRecord(
    idx: int,
    affiliation: string,
    region: string,
    year: int,
    price: int,
    tonnage: string,
    memo: string,
    readonly: bool)

  /**
   * A fee as the entry form and the spreadsheet import hand it to the store.
   * `idx` is `None` when the payload carries no id (or a falsy one);
   * `priceChanged` is `None` when the `isPriceChanged` flag is absent.
   */
  datatype FeeInput = FeeInput(
    idx: Option<int>,
    affiliation: string,
    region: string,
    year: int,
    price: int,
    tonnage: string,
    memo: string,
    priceChanged: Option<bool>)

  /**
   * A settlement-history record, as far as the listing and the consolidation
   * read it: its dispatch date (`YYYY-MM-DD`), its `name` and its `driverName`
   * (either may be empty).
   */
  datatype SettlementRecord = SettlementRecord(date: string, name: string, driverName: string)

  /** A registered driver: name and affiliation (the latter may be empty). */
  datatype DriverRecord = DriverRecord(name: string, affiliation: string)

  /** A registered affiliation. */
  datatype AffiliationRecord = AffiliationRecord(name: string)
}
