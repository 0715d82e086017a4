/** The records exchanged between the CSV uploader, the tax calculator and the
    real-earnings calculator. */
module Transactions {
  import opened Results

  /** The supported jurisdictions. */
  datatype Country = IN | US | UK

  /** The lot-selection methods. */
  datatype Method = FIFO | LIFO | HIFO

  /** The `type` column of a transaction. */
  datatype TxType = Buy | Sell | Transfer

  /** One trade. `timestamp` is the instant in milliseconds since the epoch,
      `fee` is charged once for the whole trade, `exchange` is a free label. */
  datatype TransactionData = TransactionData(
    timestamp: int,
    asset: string,
    kind: TxType,
    quantity: real,
    price: real,
    fee: real,
    exchange: string)

  /** The calculator's result; the last two fields are filled in by the
      real-earnings calculator. */
  datatype TaxCalculation = TaxCalculation(
    shortTermGains: real,
    longTermGains: real,
    totalTax: real,
    realEarnings: real,
    inflationAdjustedReturn: real)

  /** One jurisdiction's rule record; `tds` is an optional extra levy on the
      net gain. */
  datatype CountryTaxRules = CountryTaxRules(
    shortTermRate: real,
    longTermRate: real,
    allowance: real,
    tds: Option<real>,
    name: string,
    flag: string)

  /** The net realised gain of a calculation. */
  function TotalGains(c: TaxCalculation): real
  {
    c.shortTermGains + c.longTermGains
  }
}
