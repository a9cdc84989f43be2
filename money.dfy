/** Amounts in the ledger are kept in one of two currencies. */
module Money {

  /** `moneda`: 'Bs' or 'USD', as the schema's CHECK constraints allow. */
  datatype Currency = Bs | USD
}
