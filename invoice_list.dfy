/**
 * The invoice table: summary counters, status badges, the Accept and
 * Complete buttons and the two lifecycle actions behind them.
 *
 * Each action's awaited steps are parameters: what the chain reported
 * before accepting, and how the transaction ended. `onUpdateInvoice` is
 * modelled by returning its arguments; `alert` by returning the alert.
 */
module InvoiceList {
  import opened Strings
  import opened Invoices
  import Dashboard

  // ---------------------------------------------------------------------
  // Summary counters
  // ---------------------------------------------------------------------

  /** `invoices.filter((i) => i.status === status)` */
  function FilterStatus(invoices: seq<Invoice>, status: string): (r: seq<Invoice>)
    ensures |r| <= |invoices|
    ensures forall k :: 0 <= k < |r| ==> r[k].status == status && r[k] in invoices
  {
    if invoices == [] then []
    else if invoices[0].status == status then [invoices[0]] + FilterStatus(invoices[1..], status)
    else FilterStatus(invoices[1..], status)
  }

  /** The statuses of the rows, in order. */
  function Statuses(invoices: seq<Invoice>): seq<string> {
    seq(|invoices|, k requires 0 <= k < |invoices| => invoices[k].status)
  }

  /** A counter equals the multiplicity of its status among the rows. */
  lemma {:induction false} CountIsMultiplicity(invoices: seq<Invoice>, status: string)
    ensures |FilterStatus(invoices, status)| == multiset(Statuses(invoices))[status]
  {
    if invoices != [] {
      CountIsMultiplicity(invoices[1..], status);
      assert Statuses(invoices) == [invoices[0].status] + Statuses(invoices[1..]);
    }
  }

  /** The rows with one of three distinct statuses are no more than all rows. */
  lemma {:induction false} ThreeCountsBounded(invoices: seq<Invoice>, s1: string, s2: string, s3: string)
    requires s1 != s2 && s2 != s3 && s1 != s3
    ensures |FilterStatus(invoices, s1)| + |FilterStatus(invoices, s2)| + |FilterStatus(invoices, s3)| <= |invoices|
  {
    if invoices != [] {
      ThreeCountsBounded(invoices[1..], s1, s2, s3);
    }
  }

  datatype Summary = Summary(total: nat, pending: nat, staked: nat, completed: nat)

  /** The four counters above the table. */
  function Summarize(invoices: seq<Invoice>): (s: Summary)
    ensures s.total == |invoices|
    ensures s.pending + s.staked + s.completed <= s.total
    ensures s.staked == multiset(Statuses(invoices))[Staked]
    ensures s.completed == multiset(Statuses(invoices))[Completed]
    ensures s.pending == multiset(Statuses(invoices))[Pending]
  {
    ThreeCountsBounded(invoices, Pending, Staked, Completed);
    CountIsMultiplicity(invoices, Pending);
    CountIsMultiplicity(invoices, Staked);
    CountIsMultiplicity(invoices, Completed);
    Summary(|invoices|, |FilterStatus(invoices, Pending)|,
            |FilterStatus(invoices, Staked)|, |FilterStatus(invoices, Completed)|)
  }

  /** Creating an invoice adds one row, counted under its own status and no other. */
  lemma PrependedCounts(prev: seq<Invoice>, newInvoice: Invoice, today: string, status: string)
    ensures |FilterStatus(Dashboard.Prepended(prev, newInvoice, today), status)|
         == |FilterStatus(prev, status)| + (if newInvoice.status == status then 1 else 0)
  {
    assert Dashboard.Prepended(prev, newInvoice, today)[1..] == prev;
  }

  /** No list the dashboard loads has a pending row, so its Pending counter shows 0. */
  lemma {:induction false} LoadedHasNoPending(n: nat, read: nat -> Option<Dashboard.RawInvoice>,
                                              render: int -> Option<string>, today: string)
    requires Dashboard.Load(n, read, render, today).Some?
    ensures Summarize(Dashboard.Load(n, read, render, today).value).pending == 0
  {
    var items := Dashboard.Load(n, read, render, today).value;
    Dashboard.LoadContents(n, read, render, today);
    assert forall k :: 0 <= k < |items| ==> items[k].status != Pending;
  }

  // ---------------------------------------------------------------------
  // Status badge
  // ---------------------------------------------------------------------

  const GrayBadge: string := "bg-gray-100 text-gray-800"

  predicate HasOwnBadge(status: string) {
    status == Pending || status == InProgress || status == Staked || status == Completed
  }

  /** `getStatusColor`: one colour per recognised status, gray for everything else. */
  function StatusColor(status: string): (color: string)
    ensures color == GrayBadge <==> !HasOwnBadge(status)
  {
    if status == Pending then "bg-yellow-100 text-yellow-800"
    else if status == InProgress then "bg-blue-100 text-blue-800"
    else if status == Staked then "bg-purple-100 text-purple-800"
    else if status == Completed then "bg-green-100 text-green-800"
    else GrayBadge
  }

  /** Recognised statuses are told apart by their colours. */
  lemma StatusColorInjective(s1: string, s2: string)
    requires HasOwnBadge(s1) && HasOwnBadge(s2) && StatusColor(s1) == StatusColor(s2)
    ensures s1 == s2
  {
  }

  /** `status.charAt(0).toUpperCase() + status.slice(1)` */
  function StatusLabel(status: string): (shown: string)
    ensures |shown| == |status|
    ensures status != [] ==> shown[0] == UpperChar(status[0]) && shown[1..] == status[1..]
  {
    if status == [] then [] else [UpperChar(status[0])] + status[1..]
  }

  /** Capitalising a label again changes nothing. */
  lemma StatusLabelIdempotent(status: string)
    ensures StatusLabel(StatusLabel(status)) == StatusLabel(status)
  {
    if status != [] {
      var c := status[0];
      assert UpperChar(UpperChar(c)) == UpperChar(c);
    }
  }

  // ---------------------------------------------------------------------
  // Which action buttons a row shows
  // ---------------------------------------------------------------------

  /**
   * The Accept button: a staked row, a known and non-empty wallet address,
   * and that address, lowercased, different from the row's `supplier`
   * (a missing supplier is `undefined`, which no string equals).
   */
  predicate AcceptShown(invoice: Invoice, wallet: Option<string>) {
    && invoice.status == Staked
    && wallet.Some? && wallet.value != ""
    && (invoice.supplier.None? || Lower(wallet.value) != invoice.supplier.value)
  }

  /** The Complete button: an in-progress row. */
  predicate CompleteShown(invoice: Invoice) {
    invoice.status == InProgress
  }

  /** A row never offers both actions. */
  lemma ActionsExclusive(invoice: Invoice, wallet: Option<string>)
    ensures !(AcceptShown(invoice, wallet) && CompleteShown(invoice))
  {
  }

  /**
   * Loaded rows carry no supplier, so the supplier test never hides Accept:
   * every staked loaded row offers it to any connected wallet, the
   * supplier's own included.
   */
  lemma AcceptShownOnLoadedRows(n: nat, read: nat -> Option<Dashboard.RawInvoice>, render: int -> Option<string>,
                                today: string, k: nat, wallet: string)
    requires Dashboard.Load(n, read, render, today).Some? && k < |Dashboard.Load(n, read, render, today).value|
    ensures var row := Dashboard.Load(n, read, render, today).value[k];
      AcceptShown(row, Some(wallet)) <==> row.status == Staked && wallet != ""
  {
    Dashboard.LoadContents(n, read, render, today);
  }

  // ---------------------------------------------------------------------
  // The actions
  // ---------------------------------------------------------------------

  /** What accepting learns from the chain before sending anything. */
  datatype AcceptCheck =
    | CheckFailed(reason: string)                               // getting the contract, the block or the record threw
    | Checked(blockTimestamp: int, onChainDeadline: int)

  /** How the sent transaction (with its value conversion and confirmation) ended. */
  datatype TxOutcome = Confirmed | TxFailed(reason: string)

  datatype Alert = DeadlinePassed | AcceptFailed(reason: string) | CompleteFailed(reason: string)

  /** Accepting is refused locally only when chain time is strictly past the on-chain deadline. */
  predicate DeadlinePassedOnChain(check: AcceptCheck)
    requires check.Checked?
  {
    check.blockTimestamp > check.onChainDeadline
  }

  /** Rank of a lifecycle status; accepting and completing only move a row up. */
  function LifecycleRank(status: string): int {
    if status == Staked then 0
    else if status == InProgress then 1
    else if status == Completed then 2
    else -1
  }

  /** The status an offered action moves its row to is strictly later in the lifecycle. */
  lemma ActionsMoveForward(invoice: Invoice, wallet: Option<string>)
    ensures AcceptShown(invoice, wallet) ==> LifecycleRank(InProgress) > LifecycleRank(invoice.status)
    ensures CompleteShown(invoice) ==> LifecycleRank(Completed) > LifecycleRank(invoice.status)
  {
  }

  /** Replacing one element of a sequence moves one occurrence from the old value to the new one. */
  lemma MultiplicityAfterUpdate(s: seq<string>, k: nat, v: string, x: string)
    requires k < |s|
    ensures multiset(s[k := v])[x] + (if x == s[k] then 1 else 0) == multiset(s)[x] + (if x == v then 1 else 0)
  {
    assert s == s[..k] + [s[k]] + s[k + 1..];
    assert s[k := v] == s[..k] + [v] + s[k + 1..];
  }

  /**
   * In a list without repeated ids, updating row k's status moves one row
   * from its old status to the new one in every counter.
   */
  lemma CountAfterUpdate(prev: seq<Invoice>, k: nat, status: string, x: string)
    requires forall i, j :: 0 <= i < j < |prev| ==> prev[i].id != prev[j].id
    requires k < |prev|
    ensures multiset(Statuses(Dashboard.WithStatus(prev, prev[k].id, status)))[x] + (if x == prev[k].status then 1 else 0)
         == multiset(Statuses(prev))[x] + (if x == status then 1 else 0)
  {
    Dashboard.WithStatusChangesOneRow(prev, prev[k].id, status, k);
    assert Statuses(Dashboard.WithStatus(prev, prev[k].id, status)) == Statuses(prev)[k := status];
    MultiplicityAfterUpdate(Statuses(prev), k, status, x);
  }

  /**
   * A confirmed accept of a staked row, applied to a list without repeated
   * ids, moves one row from the Staked counter out to in-progress and
   * leaves the Pending and Completed counters as they were.
   */
  lemma AcceptMovesCounters(prev: seq<Invoice>, k: nat)
    requires forall i, j :: 0 <= i < j < |prev| ==> prev[i].id != prev[j].id
    requires k < |prev| && prev[k].status == Staked
    ensures var after := Summarize(Dashboard.WithStatus(prev, prev[k].id, InProgress));
      && after.total == Summarize(prev).total
      && after.staked == Summarize(prev).staked - 1
      && after.pending == Summarize(prev).pending
      && after.completed == Summarize(prev).completed
  {
    var after := Dashboard.WithStatus(prev, prev[k].id, InProgress);
    assert |Staked| == 6 && |InProgress| == 11 && |Pending| == 7 && |Completed| == 9;
    CountAfterUpdate(prev, k, InProgress, Staked);
    CountAfterUpdate(prev, k, InProgress, Pending);
    CountAfterUpdate(prev, k, InProgress, Completed);
    assert |after| == |prev|;
  }

  /**
   * A confirmed completion of an in-progress row adds one to the Completed
   * counter and leaves the Pending and Staked counters as they were.
   */
  lemma CompleteMovesCounters(prev: seq<Invoice>, k: nat)
    requires forall i, j :: 0 <= i < j < |prev| ==> prev[i].id != prev[j].id
    requires k < |prev| && prev[k].status == InProgress
    ensures var after := Summarize(Dashboard.WithStatus(prev, prev[k].id, Completed));
      && after.total == Summarize(prev).total
      && after.completed == Summarize(prev).completed + 1
      && after.pending == Summarize(prev).pending
      && after.staked == Summarize(prev).staked
  {
    var after := Dashboard.WithStatus(prev, prev[k].id, Completed);
    assert |Staked| == 6 && |InProgress| == 11 && |Pending| == 7 && |Completed| == 9;
    CountAfterUpdate(prev, k, Completed, Staked);
    CountAfterUpdate(prev, k, Completed, Pending);
    CountAfterUpdate(prev, k, Completed, Completed);
    assert |after| == |prev|;
  }

  class InvoiceTable {
    /** The id of the row whose action is running, or None (`loadingId`). */
    var loadingId: Option<string>
    /** The connected wallet's address, once known. */
    var walletAddress: Option<string>
    /** Every value assigned to `loadingId`, in order. */
    ghost var loadingLog: seq<Option<string>>

    constructor ()
      ensures loadingId == None && walletAddress == None && loadingLog == []
    {
      loadingId := None;
      walletAddress := None;
      loadingLog := [];
    }

    /** The address lookup of `useConnectedAddress` resolved. */
    method AddressResolved(address: string)
      modifies this`walletAddress
      ensures walletAddress == Some(address)
    {
      walletAddress := Some(address);
    }

    /** A button of a row is disabled while that row's action runs. */
    predicate ActionDisabled(invoice: Invoice)
      reads this
    {
      loadingId == Some(invoice.id)
    }

    /**
     * `handleAccept`: mark the row busy, refuse if the chain's clock is past
     * the on-chain deadline, otherwise send `acceptInvoice` with value
     * stake + amount; on confirmation report the row as in progress. The
     * busy mark is cleared on every path.
     */
    method HandleAccept(invoice: Invoice, check: AcceptCheck, tx: TxOutcome)
      returns (value: Option<real>, update: Option<StatusUpdate>, alert: Option<Alert>)
      modifies this`loadingId, this`loadingLog
      ensures loadingId == None
      ensures loadingLog == old(loadingLog) + [Some(invoice.id), None]
      ensures value.Some? <==> check.Checked? && !DeadlinePassedOnChain(check)
      ensures value.Some? ==> value.value == invoice.stakeAmount + invoice.amount
      ensures update == if value.Some? && tx.Confirmed? then Some(StatusUpdate(invoice.id, InProgress)) else None
      ensures alert == match check
        case CheckFailed(reason) => Some(AcceptFailed(reason))
        case Checked(_, _) =>
          if DeadlinePassedOnChain(check) then Some(DeadlinePassed)
          else if tx.TxFailed? then Some(AcceptFailed(tx.reason))
          else None
    {
      loadingId := Some(invoice.id);
      loadingLog := loadingLog + [loadingId];
      value, update, alert := None, None, None;
      if check.CheckFailed? {
        alert := Some(AcceptFailed(check.reason));
      } else if check.blockTimestamp > check.onChainDeadline {
        alert := Some(DeadlinePassed);
      } else {
        value := Some(invoice.stakeAmount + invoice.amount);
        if tx.Confirmed? {
          update := Some(StatusUpdate(invoice.id, InProgress));
        } else {
          alert := Some(AcceptFailed(tx.reason));
        }
      }
      loadingId := None;
      loadingLog := loadingLog + [loadingId];
    }

    /**
     * `handleComplete`: mark the row busy, send `markCompleted`; on
     * confirmation report the row as completed. The busy mark is cleared on
     * every path.
     */
    method HandleComplete(invoice: Invoice, tx: TxOutcome)
      returns (update: Option<StatusUpdate>, alert: Option<Alert>)
      modifies this`loadingId, this`loadingLog
      ensures loadingId == None
      ensures loadingLog == old(loadingLog) + [Some(invoice.id), None]
      ensures update == if tx.Confirmed? then Some(StatusUpdate(invoice.id, Completed)) else None
      ensures alert == if tx.Confirmed? then None else Some(CompleteFailed(tx.reason))
    {
      loadingId := Some(invoice.id);
      loadingLog := loadingLog + [loadingId];
      if tx.Confirmed? {
        update, alert := Some(StatusUpdate(invoice.id, Completed)), None;
      } else {
        update, alert := None, Some(CompleteFailed(tx.reason));
      }
      loadingId := None;
      loadingLog := loadingLog + [loadingId];
    }
  }
}
