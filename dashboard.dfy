/**
 * The dashboard page: it loads every issued invoice from the escrow
 * contract into its list, prepends invoices the creation dialog reports,
 * and applies the status changes the invoice table reports.
 *
 * The contract is reached through parameters: `nextId` is the result of
 * `contract.nextId()` (None when getting the contract or that call threw)
 * and `read(i)` the result of `contract.invoices(i)` (None when it threw).
 * `today` stands for `new Date().toISOString().split("T")[0]`.
 */
module Dashboard {
  import opened Strings
  import opened Calendar
  import opened Invoices

  const ZeroAddress: string := "0x0000000000000000000000000000000000000000"
  const WeiPerEther: real := 1000000000000000000.0

  /** A record as `contract.invoices(i)` returns it; amounts in wei, deadline in epoch seconds. */
  datatype RawInvoice = RawInvoice(
    supplier: string,
    title: string,
    description: string,
    amount: nat,
    supplierStake: nat,
    deadline: nat,
    status: nat)

  /** `statusMap[code] || "unknown"`: the four contract states by position, anything else unknown. */
  function StatusName(code: nat): (name: string)
    ensures name in {Staked, InProgress, Completed, Cancelled, Unknown}
    ensures name == Unknown <==> code > 3
  {
    var statusMap := [Staked, InProgress, Completed, Cancelled];
    if code < |statusMap| then statusMap[code] else Unknown
  }

  /** Distinct contract states get distinct names. */
  lemma StatusNameInjective(c1: nat, c2: nat)
    requires c1 <= 3 && c2 <= 3 && StatusName(c1) == StatusName(c2)
    ensures c1 == c2
  {
  }

  /** `Number(ethers.formatEther(wei))`, without floating-point rounding. */
  function WeiToEther(wei: nat): real {
    wei as real / WeiPerEther
  }

  predicate IsEmptySlot(raw: RawInvoice) {
    raw.supplier == ZeroAddress
  }

  /** The dashboard row for slot `i`, given its deadline already rendered as a date. */
  function RowOf(i: nat, raw: RawInvoice, deadline: string, today: string): Invoice {
    Invoice(
      id := Decimal(i),
      title := raw.title,
      description := Some(raw.description),
      amount := WeiToEther(raw.amount),
      stakeAmount := WeiToEther(raw.supplierStake),
      deadline := deadline,
      date := today,
      status := StatusName(raw.status),
      supplier := None)
  }

  /** What the loop does with one slot. */
  datatype SlotResult = Skip | Keep(invoice: Invoice) | Throw

  function LoadSlot(i: nat, read: Option<RawInvoice>, render: int -> Option<string>, today: string): SlotResult {
    match read
    case None => Throw
    case Some(raw) =>
      if IsEmptySlot(raw) then Skip
      else match render(raw.deadline)
        case None => Throw
        case Some(deadline) => Keep(RowOf(i, raw, deadline, today))
  }

  /**
   * The list collected from slots 0 to n - 1, or None when some read (or
   * the date conversion of some deadline) threw on the way. `render` is the
   * deadline conversion; the page uses `Calendar.IsoDateOfEpochSeconds`,
   * and the lemmas below hold for any conversion.
   */
  function Load(n: nat, read: nat -> Option<RawInvoice>, render: int -> Option<string>, today: string)
    : Option<seq<Invoice>>
  {
    if n == 0 then Some([])
    else match Load(n - 1, read, render, today)
      case None => None
      case Some(items) =>
        match LoadSlot(n - 1, read(n - 1), render, today)
        case Throw => None
        case Skip => Some(items)
        case Keep(invoice) => Some(items + [invoice])
  }

  /** Once a read has thrown, scanning further slots cannot bring the list back. */
  lemma {:induction false} LoadFailurePersists(i: nat, n: nat, read: nat -> Option<RawInvoice>,
                                    render: int -> Option<string>, today: string)
    requires i <= n && Load(i, read, render, today).None?
    ensures Load(n, read, render, today).None?
  {
    if i < n {
      LoadFailurePersists(i, n - 1, read, render, today);
    }
  }

  /** The slots below `n` that hold an issued invoice, in increasing order. */
  function IssuedSlots(n: nat, read: nat -> Option<RawInvoice>): seq<nat> {
    if n == 0 then []
    else if read(n - 1).Some? && !IsEmptySlot(read(n - 1).value) then IssuedSlots(n - 1, read) + [n - 1]
    else IssuedSlots(n - 1, read)
  }

  /** The issued slots are strictly increasing, below `n`, and exactly the non-empty ones. */
  lemma {:induction false} IssuedSlotsFacts(n: nat, read: nat -> Option<RawInvoice>)
    ensures var slots := IssuedSlots(n, read);
      && |slots| <= n
      && (forall k :: 0 <= k < |slots| ==> slots[k] < n)
      && (forall j, k :: 0 <= j < k < |slots| ==> slots[j] < slots[k])
      && (forall i :: 0 <= i < n ==> (i in slots <==> read(i).Some? && !IsEmptySlot(read(i).value)))
  {
    if n > 0 {
      IssuedSlotsFacts(n - 1, read);
    }
  }

  /**
   * A successful load holds one row per issued slot, in slot order, each
   * built from that slot's record with id `i.toString()`.
   */
  lemma {:induction false} LoadContents(n: nat, read: nat -> Option<RawInvoice>,
                                    render: int -> Option<string>, today: string)
    requires Load(n, read, render, today).Some?
    ensures var items := Load(n, read, render, today).value;
      var slots := IssuedSlots(n, read);
      && |items| == |slots|
      && forall k :: 0 <= k < |items| ==>
           && read(slots[k]).Some?
           && render(read(slots[k]).value.deadline).Some?
           && items[k] == RowOf(slots[k], read(slots[k]).value,
                                render(read(slots[k]).value.deadline).value, today)
  {
    if n > 0 {
      LoadContents(n - 1, read, render, today);
    }
  }

  /** A load succeeds exactly when every read succeeds and every issued deadline is a representable date. */
  lemma {:induction false} LoadSucceedsIff(n: nat, read: nat -> Option<RawInvoice>,
                                    render: int -> Option<string>, today: string)
    ensures Load(n, read, render, today).Some? <==>
      forall i :: 0 <= i < n ==>
        read(i).Some? && (!IsEmptySlot(read(i).value) ==> render(read(i).value.deadline).Some?)
  {
    if n > 0 {
      LoadSucceedsIff(n - 1, read, render, today);
      if Load(n - 1, read, render, today).None? && Load(n, read, render, today).Some? {
        assert false;
      }
    }
  }

  /** Row k of a successful load carries the id of the k-th issued slot. */
  lemma LoadIds(n: nat, read: nat -> Option<RawInvoice>,
                                    render: int -> Option<string>, today: string)
    requires Load(n, read, render, today).Some?
    ensures var items := Load(n, read, render, today).value;
      && |items| == |IssuedSlots(n, read)|
      && forall k :: 0 <= k < |items| ==> items[k].id == Decimal(IssuedSlots(n, read)[k])
  {
    LoadContents(n, read, render, today);
  }

  /** Loaded ids are the decimal forms of strictly increasing slot numbers, so no two rows share an id. */
  lemma LoadedIdsDistinct(n: nat, read: nat -> Option<RawInvoice>,
                                    render: int -> Option<string>, today: string)
    requires Load(n, read, render, today).Some?
    ensures var items := Load(n, read, render, today).value;
      && |items| <= n
      && forall j, k :: 0 <= j < k < |items| ==> items[j].id != items[k].id
  {
    LoadIds(n, read, render, today);
    IssuedSlotsFacts(n, read);
    var items := Load(n, read, render, today).value;
    var slots := IssuedSlots(n, read);
    forall j, k | 0 <= j < k < |items| ensures items[j].id != items[k].id {
      assert slots[j] < slots[k];
      if items[j].id == items[k].id {
        DecimalInjective(slots[j], slots[k]);
      }
    }
  }

  /** `[{...newInvoice, date: today}, ...prev]` */
  function Prepended(prev: seq<Invoice>, newInvoice: Invoice, today: string): (r: seq<Invoice>)
    ensures |r| == |prev| + 1 && r[1..] == prev
    ensures r[0] == newInvoice.(date := today)
  {
    [newInvoice.(date := today)] + prev
  }

  /** `prev.map(inv => inv.id === id ? { ...inv, status } : inv)` */
  function WithStatus(prev: seq<Invoice>, id: string, status: string): (r: seq<Invoice>)
    ensures |r| == |prev|
    ensures forall k :: 0 <= k < |prev| ==>
      r[k] == if prev[k].id == id then prev[k].(status := status) else prev[k]
  {
    if prev == [] then []
    else [if prev[0].id == id then prev[0].(status := status) else prev[0]] + WithStatus(prev[1..], id, status)
  }

  /** Updating touches nothing but the status field, and keeps every id in place. */
  lemma WithStatusOnlyChangesStatus(prev: seq<Invoice>, id: string, status: string)
    ensures var r := WithStatus(prev, id, status);
      forall k :: 0 <= k < |prev| ==>
        r[k].id == prev[k].id && r[k].(status := prev[k].status) == prev[k]
  {
  }

  /** Applying the same update twice is the same as applying it once. */
  lemma WithStatusIdempotent(prev: seq<Invoice>, id: string, status: string)
    ensures WithStatus(WithStatus(prev, id, status), id, status) == WithStatus(prev, id, status)
  {
  }

  /** In a list without repeated ids, an update changes at most the one row with that id. */
  lemma WithStatusChangesOneRow(prev: seq<Invoice>, id: string, status: string, k: nat)
    requires forall i, j :: 0 <= i < j < |prev| ==> prev[i].id != prev[j].id
    requires k < |prev| && prev[k].id == id
    ensures var r := WithStatus(prev, id, status);
      r[k].status == status && forall j :: 0 <= j < |prev| && j != k ==> r[j] == prev[j]
  {
  }

  /** The page's state: the invoice list and whether the creation dialog is open. */
  class DashboardPage {
    var invoices: seq<Invoice>
    var isModalOpen: bool

    constructor ()
      ensures invoices == [] && !isModalOpen
    {
      invoices := [];
      isModalOpen := false;
    }

    /**
     * The load effect: scan every slot, then replace the list; keep the old
     * list if anything threw. `render` is the deadline conversion
     * (`new Date(deadline * 1000).toISOString()`, cut at the 'T'), which the
     * page takes from `Calendar.IsoDateOfEpochSeconds`.
     */
    method FetchInvoices(nextId: Option<nat>, read: nat -> Option<RawInvoice>, render: int -> Option<string>, today: string)
      modifies this`invoices
      ensures nextId.Some? && Load(nextId.value, read, render, today).Some? ==>
        invoices == Load(nextId.value, read, render, today).value
      ensures nextId.None? || Load(nextId.value, read, render, today).None? ==>
        invoices == old(invoices)
    {
      if nextId.None? {
        return;
      }
      var n := nextId.value;
      var items: seq<Invoice> := [];
      var i := 0;
      while i < n
        invariant 0 <= i <= n
        invariant Load(i, read, render, today) == Some(items)
      {
        var inv := read(i);
        if inv.None? {
          LoadFailurePersists(i + 1, n, read, render, today);
          return;
        }
        var raw := inv.value;
        if raw.supplier != ZeroAddress {
          var deadline := render(raw.deadline);
          if deadline.None? {
            LoadFailurePersists(i + 1, n, read, render, today);
            return;
          }
          items := items + [RowOf(i, raw, deadline.value, today)];
        }
        i := i + 1;
      }
      invoices := items;
    }

    /** `handleCreateInvoice`: put the new invoice, stamped with today's date, first; close the dialog. */
    method CreateInvoice(newInvoice: Invoice, today: string)
      modifies this
      ensures invoices == Prepended(old(invoices), newInvoice, today)
      ensures !isModalOpen
    {
      invoices := Prepended(invoices, newInvoice, today);
      isModalOpen := false;
    }

    /** The `onUpdateInvoice` callback handed to the invoice table. */
    method UpdateInvoice(update: StatusUpdate)
      modifies this`invoices
      ensures invoices == WithStatus(old(invoices), update.id, update.status)
    {
      invoices := WithStatus(invoices, update.id, update.status);
    }

    method OpenModal()
      modifies this`isModalOpen
      ensures isModalOpen
    {
      isModalOpen := true;
    }

    method CloseModal()
      modifies this`isModalOpen
      ensures !isModalOpen
    {
      isModalOpen := false;
    }
  }
}
