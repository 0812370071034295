/**
 * The invoice record the dashboard keeps in its list and hands to the
 * invoice table, and the status names it uses.
 */
module Invoices {
  import opened Strings

  const Staked: string := "staked"
  const InProgress: string := "in-progress"
  const Completed: string := "completed"
  const Cancelled: string := "cancelled"
  const Unknown: string := "unknown"
  /** A status the table counts and colours but that no code path ever assigns. */
  const Pending: string := "pending"

  /**
   * One row of the dashboard. Amounts are in FTN. `description` is None
   * where the JavaScript object carries `undefined`; `supplier` is None on
   * every record the dashboard builds, because neither the loader nor the
   * creation flow copies the supplier address into the row.
   */
  datatype Invoice = Invoice(
    id: string,
    title: string,
    description: Option<string>,
    amount: real,
    stakeAmount: real,
    deadline: string,
    date: string,
    status: string,
    supplier: Option<string>)

  /** The arguments of an `onUpdateInvoice(id, status)` call. */
  datatype StatusUpdate = StatusUpdate(id: string, status: string)
}
