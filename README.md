# Invoice escrow dashboard — a verified model

The application is a web dashboard for invoices held in an escrow contract.
A supplier describes a piece of work in a chat dialog. A language-model
endpoint extracts a title, an amount and a `YYYY-MM-DD` deadline from the
description. The supplier confirms or edits the extracted fields, then
stakes collateral, and the invoice is created on-chain. The dashboard
lists every invoice stored by the contract. A client can accept a staked
invoice by paying the stake plus the amount, and then mark it completed.

This project models the three pieces of that application that carry
logic, each in its own module:

- `InvoiceModal` (`invoice_modal.dfy`) models the creation dialog as a
  class. Its fields are the message log, the input box, the busy flag, the
  extracted fields, the step (chat, review, stake) and the stake box. Each
  handler is a method. The checks that run before anything is sent are a
  function. Two ISO-date lemmas connect the deadline the user types, the
  end-of-day epoch sent on-chain and the date shown back.
- `Dashboard` (`dashboard.dfy`) models the page. A class holds the
  invoice list and whether the dialog is open.
  - The load loop is a method with a `while` loop. It is proved against a
    recursive specification `Load`, and lemmas state what `Load` yields.
  - Prepending a created invoice and updating a status by id are sequence
    functions with lemmas about them.
- `InvoiceList` (`invoice_list.dfy`) models the invoice table.
  - The summary counters, the badge colour, the label capitalisation and
    the rules for showing the action buttons are functions and predicates.
  - Accept and Complete are methods of a class. The class keeps the
    per-row busy flag `loadingId` and the connected wallet's address.

Three supporting modules:

- `Calendar` (`calendar.dfy`) holds the date arithmetic of ECMA-262 that
  the application relies on:
  - DayFromYear, MakeDay with month and day rollover, the 1900 offset
    for years 0–99, and TimeClip;
  - the date part of `toISOString`;
  - the round trip between calendar dates and day numbers.
- `Strings` (`strings.dfy`) models `trim`, `split` on one character,
  `Number` applied to a piece of a date, decimal rendering and ASCII
  lowercasing.
- `Invoices` (`invoices.dfy`) holds the invoice record and the status
  names.

Every awaited result becomes a method parameter: the endpoint's reply,
`Date.now()`, the block timestamp, contract reads, and transaction
outcomes. So does today's date, `new Date().toISOString().split("T")[0]`.
Callbacks become return values:

- `onCreateInvoice` returns the created record;
- `onClose` returns a flag;
- `onUpdateInvoice` returns a `StatusUpdate`;
- `alert` returns an `Alert`.

Ghost logs record every value written to a busy flag (`processingLog`,
`loadingLog`). This lets contracts state that the flag is set during an
action and cleared again on every exit path. Chat messages are modelled by
their kind plus the values they interpolate, not by their English text.

## Model

| member | source | states |
|---|---|---|
| Strings.TrimStart | components/dashboard/CreateInvoiceModal.js:29 | the result is a suffix of the input; everything removed is ECMAScript whitespace; the result does not start with whitespace |
| Strings.TrimEnd | components/dashboard/CreateInvoiceModal.js:29 | the result is a prefix of the input; everything removed is whitespace; the result does not end with whitespace |
| Strings.TrimEmptyIffBlank | components/dashboard/CreateInvoiceModal.js:29 | `!input.trim()` holds exactly when every character of the input is whitespace (both directions) |
| Strings.TrimUnpadded | components/dashboard/CreateInvoiceModal.js:117-119 | a string with non-whitespace at both ends is its own trim |
| Strings.Split | components/dashboard/CreateInvoiceModal.js:117-118 | `split` on one character always yields at least one piece |
| Strings.SplitJoin | components/dashboard/CreateInvoiceModal.js:117-118 | joining the pieces of a split with the separator gives back the original string |
| Strings.SplitPiecesHaveNoSeparator | components/dashboard/CreateInvoiceModal.js:117-118 | no piece of a split contains the separator |
| Strings.SplitPrefix | components/dashboard/CreateInvoiceModal.js:117-118 | a leading run free of the separator comes off as the first piece, and the rest splits independently |
| Strings.SplitNoSeparator | components/dashboard/CreateInvoiceModal.js:117-118 | a string without the separator splits into itself alone |
| Strings.Decimal | app/dashboard/page.js:28 | `i.toString()` is a non-empty digit string without a leading zero |
| Strings.DecimalRoundTrip | app/dashboard/page.js:28 | reading back the decimal form of `n` gives `n` |
| Strings.DecimalInjective | app/dashboard/page.js:28 | distinct slot numbers get distinct id strings |
| Strings.LeadingZerosValue | components/dashboard/CreateInvoiceModal.js:189-191 | zero padding, as toISOString writes it, does not change the value of a digit string |
| Strings.PadDecimalValue | components/dashboard/CreateInvoiceModal.js:189-191 | a zero-padded decimal reads back as its value |
| Strings.NumberOfPiece | components/dashboard/CreateInvoiceModal.js:117-119 | `Number` of an empty or all-whitespace piece is 0 |
| Strings.Lower | components/dashboard/InvoiceList.js:204 | `toLowerCase` keeps the length and lowercases each ASCII letter in place |
| Calendar.DayFromYearStep | components/dashboard/CreateInvoiceModal.js:132-134 | DayFromYear(y+1) = DayFromYear(y) + 365 or 366, according to the Gregorian leap rule |
| Calendar.DayFromYearBounds | components/dashboard/CreateInvoiceModal.js:189-191 | DayFromYear stays within a bounded distance of 365.2425 days per year from 1970 |
| Calendar.YearUnique | components/dashboard/CreateInvoiceModal.js:189-191 | each day number lies in exactly one year |
| Calendar.YearOfDay | components/dashboard/CreateInvoiceModal.js:189-191 | YearFromTime: the returned year's January 1 is at or before the day, and the next year's is after it |
| Calendar.MonthOfDayInYear | components/dashboard/CreateInvoiceModal.js:189-191 | MonthFromTime: the month returned contains the given day of the year |
| Calendar.CivilFromDays | components/dashboard/CreateInvoiceModal.js:189-191 | the date of a day number is a valid calendar date whose day number is that day |
| Calendar.CivilRoundTrip | components/dashboard/CreateInvoiceModal.js:189-191 | every valid date comes back from its day number |
| Calendar.DaysFromCivilInjective | components/dashboard/CreateInvoiceModal.js:132-134 | distinct valid dates have distinct day numbers |
| Calendar.EndOfDayFormula | components/dashboard/CreateInvoiceModal.js:132-134 | `Math.floor(Date.UTC(y, m-1, d, 23, 59, 59)/1000)` is days-from-civil × 86400 + 86399 when representable, and NaN otherwise |
| Calendar.TwoDigitYears | components/dashboard/CreateInvoiceModal.js:132-134 | Date.UTC reads years 1–99 as 1901–1999 |
| Calendar.MonthRollover | components/dashboard/CreateInvoiceModal.js:132-134 | a month index past December rolls into the next year |
| Calendar.DayAfterMonthEnd | components/dashboard/CreateInvoiceModal.js:132-134 | MakeDay: the day number after a month's last day is that of the next month's first day |
| Calendar.DayAfterDecember | components/dashboard/CreateInvoiceModal.js:132-134 | MakeDay: the day after 31 December is 1 January of the next year |
| Calendar.DayRollover | components/dashboard/CreateInvoiceModal.js:132-134 | the day after a month's last day is the first of the next month, with December rolling into the next January |
| Calendar.IsoDateOfSecondInDay | app/dashboard/page.js:33 | every second within a day renders as that day's `YYYY-MM-DD` |
| Calendar.EndOfDayRoundTrip | components/dashboard/CreateInvoiceModal.js:189-191 | the end-of-day epoch of a valid date from year 100 on renders back as the same `YYYY-MM-DD` |
| Dashboard.StatusName | app/dashboard/page.js:25-35 | the status map is total: codes 0–3 map to the four contract states, and a name is `unknown` exactly when the code is above 3 |
| Dashboard.StatusNameInjective | app/dashboard/page.js:25 | distinct contract states get distinct names |
| Dashboard.LoadFailurePersists | app/dashboard/page.js:40-43 | once a read (or a deadline conversion) has thrown, no later slot can bring the load back, whatever the conversion |
| Dashboard.IssuedSlotsFacts | app/dashboard/page.js:22-24 | the kept slots are strictly increasing, below `nextId`, and exactly the slots whose supplier is not the zero address |
| Dashboard.LoadContents | app/dashboard/page.js:22-38 | a successful load has one row per kept slot, in slot order; each row is built from its slot's record, with the ISO date of its on-chain deadline |
| Dashboard.LoadSucceedsIff | app/dashboard/page.js:17-43 | the load succeeds exactly when every read succeeds and every kept deadline can be rendered as a date |
| Dashboard.LoadIds | app/dashboard/page.js:28 | row k's id is the decimal form of the k-th kept slot |
| Dashboard.LoadedIdsDistinct | app/dashboard/page.js:22-28 | a loaded list has at most `nextId` rows and no repeated id |
| Dashboard.Prepended | app/dashboard/page.js:49-56 | creating yields the new record, stamped with today's date, followed by the old list unchanged |
| Dashboard.WithStatus | app/dashboard/page.js:75-81 | the update keeps the length; it changes the status of each row whose id matches and leaves every other row as it was |
| Dashboard.WithStatusOnlyChangesStatus | app/dashboard/page.js:75-81 | the update touches only the status field and keeps every id in place |
| Dashboard.WithStatusIdempotent | app/dashboard/page.js:75-81 | applying the same update twice equals applying it once |
| Dashboard.WithStatusChangesOneRow | app/dashboard/page.js:75-81 | in a list without repeated ids, exactly the one matching row changes |
| Dashboard.DashboardPage.constructor | app/dashboard/page.js:12-13 | the page starts with an empty list and the dialog closed |
| Dashboard.DashboardPage.FetchInvoices | app/dashboard/page.js:16-44 | the loop's result replaces the list when every step succeeds, and it is exactly `Load` of the slots; if `nextId`, any read or any deadline conversion throws, the old list stays and partial results are discarded |
| Dashboard.DashboardPage.CreateInvoice | app/dashboard/page.js:49-58 | the list becomes the dated new record followed by the old list, and the dialog closes |
| Dashboard.DashboardPage.UpdateInvoice | app/dashboard/page.js:75-81 | the list becomes the status update of the old list |
| Dashboard.DashboardPage.OpenModal | app/dashboard/page.js:67 | the "Create Invoice" button opens the dialog |
| Dashboard.DashboardPage.CloseModal | app/dashboard/page.js:86 | the dialog's `onClose` closes it |
| InvoiceList.FilterStatus | components/dashboard/InvoiceList.js:121 | the filter returns no more rows than the list, and each has the status and comes from the list |
| InvoiceList.CountIsMultiplicity | components/dashboard/InvoiceList.js:116-134 | a counter equals the number of rows with exactly that status |
| InvoiceList.ThreeCountsBounded | components/dashboard/InvoiceList.js:116-134 | the rows of three distinct statuses together are no more than all rows |
| InvoiceList.Summarize | components/dashboard/InvoiceList.js:113-135 | total is the length of the list; each counter is its status's multiplicity; pending + staked + completed ≤ total |
| InvoiceList.PrependedCounts | components/dashboard/InvoiceList.js:116-134 | creating an invoice adds one to its own status's counter and to no other |
| InvoiceList.LoadedHasNoPending | components/dashboard/InvoiceList.js:119-122 | a freshly loaded list has no `pending` row, so the Pending counter shows 0 |
| InvoiceList.CountAfterUpdate | components/dashboard/InvoiceList.js:116-134 | updating one row of a list without repeated ids moves one count from its old status to the new one |
| InvoiceList.AcceptMovesCounters | components/dashboard/InvoiceList.js:87 | a confirmed accept of a staked row lowers Staked by one and leaves Pending, Completed and Total unchanged |
| InvoiceList.CompleteMovesCounters | components/dashboard/InvoiceList.js:102 | a confirmed completion of an in-progress row raises Completed by one and leaves Pending, Staked and Total unchanged |
| InvoiceList.StatusColor | components/dashboard/InvoiceList.js:30-43 | the colour map is total; the gray default is returned exactly for unrecognised statuses |
| InvoiceList.StatusColorInjective | components/dashboard/InvoiceList.js:30-43 | recognised statuses have distinct colours |
| InvoiceList.StatusLabel | components/dashboard/InvoiceList.js:194-195 | the label has the status's length, its first character upper-cased and the rest unchanged |
| InvoiceList.StatusLabelIdempotent | components/dashboard/InvoiceList.js:194-195 | capitalising a label again changes nothing |
| InvoiceList.ActionsExclusive | components/dashboard/InvoiceList.js:202-224 | no row shows both Accept and Complete |
| InvoiceList.AcceptShownOnLoadedRows | components/dashboard/InvoiceList.js:202-205 | on a loaded row, Accept shows exactly when the row is staked and the wallet address is non-empty; the supplier test never hides it, because rows carry no supplier |
| InvoiceList.ActionsMoveForward | components/dashboard/InvoiceList.js:202-224 | an offered action moves its row strictly forward in the lifecycle staked → in-progress → completed |
| InvoiceList.InvoiceTable.constructor | components/dashboard/InvoiceList.js:27-28 | the table starts with no busy row and no known wallet |
| InvoiceList.InvoiceTable.AddressResolved | components/dashboard/InvoiceList.js:8-24 | once resolved, the wallet's address is known |
| InvoiceList.InvoiceTable.HandleAccept | components/dashboard/InvoiceList.js:50-94 | a value is sent exactly when the chain reads succeed and block time ≤ on-chain deadline, and it is stake + amount; only a confirmed transaction reports `in-progress`; each failure yields its alert; `loadingId` is set to the row and then cleared on every path |
| InvoiceList.InvoiceTable.HandleComplete | components/dashboard/InvoiceList.js:96-109 | only a confirmed transaction reports `completed`, and a failure yields its alert; `loadingId` is set and then cleared on every path |
| InvoiceModal.ReplyTo | components/dashboard/CreateInvoiceModal.js:42-83 | each reply is one assistant message; it is the actionable summary exactly when the response is OK and carries `extracted` |
| InvoiceModal.DeadlineParts | components/dashboard/CreateInvoiceModal.js:117-121 | a deadline is accepted exactly when its first three `-` pieces are all present, numeric and non-zero |
| InvoiceModal.CheckBeforeSubmit | components/dashboard/CreateInvoiceModal.js:109-146 | the checks run in order: an empty or non-positive stake is refused first, then a malformed deadline; clearing needs a positive stake and a well-formed deadline |
| InvoiceModal.DeadlineGuard | components/dashboard/CreateInvoiceModal.js:132-146 | a well-formed deadline is refused as past exactly when its end-of-day epoch is ≤ the current second; otherwise that epoch is sent and lies after now |
| InvoiceModal.UnrepresentableDeadlineClears | components/dashboard/CreateInvoiceModal.js:132-136 | an end of day beyond the Date range (NaN) passes the "in the past" test |
| InvoiceModal.FutureIsoDeadlineClears | components/dashboard/CreateInvoiceModal.js:117-146 | a `YYYY-MM-DD` deadline whose end of day lies in the future clears the checks and is sent as that end of day |
| InvoiceModal.DigitPieceNumber | components/dashboard/CreateInvoiceModal.js:117-119 | a zero-padded month or day piece contains no `-` and `Number` reads it back as its value |
| InvoiceModal.YearPieceNumber | components/dashboard/CreateInvoiceModal.js:117-119 | an ISO year piece (four digits, or `+` and six) contains no `-` and reads back as the year |
| InvoiceModal.IsoDateParts | components/dashboard/CreateInvoiceModal.js:117-121 | the ISO text of any date with positive fields is accepted and parsed back as that date |
| InvoiceModal.DeadlineRoundTrip | components/dashboard/CreateInvoiceModal.js:117-191 | a deadline typed as `YYYY-MM-DD` (year 100 on) parses back to its date, and the on-chain end of day converts back to the same text |
| InvoiceModal.TwoDigitYearDeadline | components/dashboard/CreateInvoiceModal.js:132-134 | a year typed as 1–99 is sent as the same day in 1901–1999, and renders back as that 20th-century date |
| InvoiceModal.DescriptionOrTitle | components/dashboard/CreateInvoiceModal.js:164 | the title is sent as the description exactly when the description is missing, empty or equal to the title |
| InvoiceModal.Settle | components/dashboard/CreateInvoiceModal.js:171-207 | a record is created exactly when the transaction is mined with an `InvoiceCreated` event whose deadline renders as a date, and then "created on-chain" is logged; its id and deadline come from the event and its status is `staked` |
| InvoiceModal.CreateInvoiceModal.constructor | components/dashboard/CreateInvoiceModal.js:8-19 | the dialog opens in the chat step, with only the greeting logged and everything else empty |
| InvoiceModal.CreateInvoiceModal.InputChanged | components/dashboard/CreateInvoiceModal.js:264 | typing sets the input box |
| InvoiceModal.CreateInvoiceModal.StakeChanged | components/dashboard/CreateInvoiceModal.js:311 | typing sets the stake box |
| InvoiceModal.CreateInvoiceModal.SendMessage | components/dashboard/CreateInvoiceModal.js:27-87 | a blank input or a running request changes nothing and sends nothing; otherwise the input is posted and the state is as `Post` leaves it |
| InvoiceModal.CreateInvoiceModal.Post | components/dashboard/CreateInvoiceModal.js:31-86 | the user's text and exactly one reply are appended, the input is cleared, and the busy flag is set and then cleared; only a successful extraction stores the data and moves to review |
| InvoiceModal.CreateInvoiceModal.ConfirmDetails | components/dashboard/CreateInvoiceModal.js:89-98 | review moves to stake, with the extracted data untouched and one prompt appended |
| InvoiceModal.CreateInvoiceModal.EditDetails | components/dashboard/CreateInvoiceModal.js:100-107 | review returns to chat with the extracted data cleared and the whole log kept |
| InvoiceModal.CreateInvoiceModal.StakeAndCreate | components/dashboard/CreateInvoiceModal.js:108-218 | a refused check appends its one message and sends nothing; otherwise `createInvoice` is called with the title, the description or title, the amount, the end-of-day deadline and the stake, and the outcome is logged; the record is handed over and the dialog closes exactly on success; the busy flag is raised only around the transaction and is cleared after it, and the step stays stake |
| InvoiceModal.CreateInvoiceModal.Submit | components/dashboard/CreateInvoiceModal.js:148-217 | the staking notice and the settled outcome are appended, the busy flag is set and then cleared, and the record handed over is the settled one |

## Left out

- The extraction endpoint (`app/api/extract-invoice/route.js`) is not part of this model. Its reply is an input: a status plus optional extracted fields, or an exception.
- The extracted fields are assumed to have the types the dialog expects. A non-string deadline would make `split` throw outside the `try`, and that is not modelled.
- Wallet, provider and contract wiring (`lib/getEscrowContract.js`, `components/Navbar.js`) are not part of this model. Their results are parameters.
- Event decoding is not modelled. The search of the receipt's logs for `InvoiceCreated` is an optional event parameter.
- Concurrency is not modelled. Each handler runs to completion as one step, and other events cannot interleave at its awaits. So is the double-click a Stake button that is not disabled while busy would allow.
- `Dashboard.DashboardPage.FetchInvoices`: the deadline conversion is a parameter. The page converts with `toISOString`, whose date part is `Calendar.IsoDateOfEpochSeconds`; the contract and the `Load` lemmas hold for any conversion.
- `Dashboard.WeiToEther`: `Number(formatEther(wei))` is exact rational division, without the rounding to a double.
- `InvoiceList.InvoiceTable.HandleAccept`: the value is the exact real stake + amount. The floating-point sum and its `parseEther(total.toString())` conversion are not modelled. A conversion that throws counts as a failed transaction.
- `InvoiceModal.CreateInvoiceModal.StakeAndCreate`: `parseEther` of the amount and of the stake is folded into the transaction outcome.
- `InvoiceModal.CreateInvoiceModal.StakeChanged`: the stake box is a `type="number"` input, so it holds an empty text or a number's text together with its value. `parseFloat` of arbitrary text is not modelled, and neither is the NaN that would slip past the `<= 0` check.
- `Strings.NumberOfPiece`: this is weaker than `Number`. It reads only optional whitespace, an optional `+` and decimal digits. Pieces with a decimal point, an exponent, a hex prefix or `Infinity` are numbers in JavaScript but NaN here.
- `InvoiceModal.DeadlineParts`: weaker for the same reason. A deadline such as `2025-06-1.5`, which JavaScript accepts (Date.UTC truncates the day), is rejected as malformed here.
- `Strings.Lower`: only ASCII letters are lowercased, not the full Unicode case mapping.
- Rendering is not modelled: the JSX markup, the scroll effect, `console.log`/`console.error`, `toFixed(4)` and the locale-dependent `toLocaleDateString` of the Date column.
- `alert` appears only as a returned value.
- Message texts are not modelled as strings. They are kinds carrying the interpolated values.
- Hero, layout and footer markup are not part of this model.
