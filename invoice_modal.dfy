/**
 * The invoice-creation dialog: a chat step that sends the user's text to
 * the extraction endpoint, a review step (confirm or edit), and a stake
 * step that checks the stake and the deadline and then creates the
 * invoice on the escrow contract.
 *
 * Every awaited result is a parameter: the extraction endpoint's reply,
 * `Date.now()`, and how the contract call ended. `onCreateInvoice` is
 * modelled by returning its argument, `onClose` by returning whether it was
 * called. Message texts are modelled by their kind and the values they
 * interpolate.
 */
module InvoiceModal {
  import opened Strings
  import opened Calendar
  import opened Invoices

  datatype Step = Chat | Review | Stake

  datatype Role = User | Assistant

  /** The fields the extraction endpoint returns (`payload.extracted`). */
  datatype Extraction = Extraction(title: string, description: Option<string>, amount: real, deadline: string)

  /** What a chat message says. */
  datatype Content =
    | Greeting                                  // the opening prompt
    | UserText(text: string)                    // what the user typed, untrimmed
    | ServerError(status: int)                  // the endpoint answered with a non-2xx status
    | NothingExtracted                          // the answer had no `extracted` payload
    | ExtractedSummary(extraction: Extraction)  // title, amount and deadline, asking to confirm or edit
    | SomethingWentWrong                        // the request or the JSON decoding threw
    | AskStake
    | AskUpdatedDetails
    | InvalidStake
    | InvalidDeadlineFormat
    | DeadlineInPast
    | StakingNotice(stake: string)
    | CreatedOnChain
    | TransactionFailed(reason: string)

  datatype Message = Message(role: Role, content: Content, isAction: bool)

  function Say(content: Content): Message {
    Message(Assistant, content, false)
  }

  /** The stake input (`type="number"`): empty, or its text together with the number it denotes. */
  datatype NumberField = Blank | Number(text: string, value: real)

  /** How the request to the extraction endpoint ended. */
  datatype ExtractReply =
    | Responded(status: int, extracted: Option<Extraction>)
    | Threw                                     // fetch, text() or json() rejected

  /** The `InvoiceCreated` event: the ledger's id and deadline. */
  datatype CreatedEvent = CreatedEvent(id: nat, deadline: nat)

  /** How `createInvoice` and `tx.wait()` ended; a mined transaction may lack the event. */
  datatype SubmitOutcome = SubmitFailed(reason: string) | Mined(event: Option<CreatedEvent>)

  /** The arguments of `contract.createInvoice`; a None deadline is NaN. */
  datatype CreateCall = CreateCall(title: string, description: string, amount: real, deadline: Option<int>, stake: string)

  // ---------------------------------------------------------------------
  // Sending a chat message
  // ---------------------------------------------------------------------

  predicate IsOk(status: int) {
    200 <= status <= 299
  }

  /** Only an OK answer carrying a payload moves the dialog on to review. */
  predicate ExtractionSucceeded(reply: ExtractReply) {
    reply.Responded? && IsOk(reply.status) && reply.extracted.Some?
  }

  /** The assistant's answer to one sent message. */
  function ReplyTo(reply: ExtractReply): (m: Message)
    ensures m.role == Assistant
    ensures m.isAction <==> ExtractionSucceeded(reply)
  {
    match reply
    case Threw => Say(SomethingWentWrong)
    case Responded(status, extracted) =>
      if !IsOk(status) then Say(ServerError(status))
      else if extracted.None? then Say(NothingExtracted)
      else Message(Assistant, ExtractedSummary(extracted.value), true)
  }

  // ---------------------------------------------------------------------
  // The deadline
  // ---------------------------------------------------------------------

  /** `Number(pieces[k])`, with a missing piece as `undefined` (None, like NaN). */
  function PieceNumber(pieces: seq<string>, k: nat): Option<nat> {
    if k < |pieces| then NumberOfPiece(pieces[k]) else None
  }

  predicate Truthy(n: Option<nat>) {
    n.Some? && n.value != 0
  }

  /**
   * `const [year, month, day] = deadline.split("-").map(Number)`, accepted
   * only when all three are truthy (present, numeric and non-zero).
   */
  function DeadlineParts(deadline: string): (r: Option<Date>)
    ensures r.Some? <==>
      var pieces := Split(deadline, '-');
      Truthy(PieceNumber(pieces, 0)) && Truthy(PieceNumber(pieces, 1)) && Truthy(PieceNumber(pieces, 2))
    ensures r.Some? ==> r.value.year >= 1 && r.value.month >= 1 && r.value.day >= 1
  {
    var pieces := Split(deadline, '-');
    var year, month, day := PieceNumber(pieces, 0), PieceNumber(pieces, 1), PieceNumber(pieces, 2);
    if Truthy(year) && Truthy(month) && Truthy(day) then Some(Date(year.value, month.value, day.value))
    else None
  }

  /** The on-chain deadline for a deadline text: 23:59:59 UTC of its day, in epoch seconds (None is NaN). */
  function DeadlineSeconds(parts: Date): Option<int>
    requires parts.year >= 1 && parts.month >= 1 && parts.day >= 1
  {
    EndOfDayUtcSeconds(parts.year, parts.month, parts.day)
  }

  /** What the checks before staking decide. */
  datatype Verdict = Rejected(reason: Content) | Cleared(deadlineSeconds: Option<int>)

  predicate StakeRejected(stake: NumberField) {
    stake.Blank? || stake.value <= 0.0
  }

  /**
   * The three checks before anything is sent, in order: the stake, the
   * deadline's shape, and that the deadline lies after now. A NaN deadline
   * is not "<= now", so it clears the last check.
   */
  function CheckBeforeSubmit(stake: NumberField, deadline: string, nowMs: int): (v: Verdict)
    ensures StakeRejected(stake) ==> v == Rejected(InvalidStake)
    ensures !StakeRejected(stake) && DeadlineParts(deadline).None? ==> v == Rejected(InvalidDeadlineFormat)
    ensures v.Rejected? ==> v.reason in {InvalidStake, InvalidDeadlineFormat, DeadlineInPast}
    ensures v.Cleared? ==> stake.Number? && stake.value > 0.0 && DeadlineParts(deadline).Some?
  {
    if StakeRejected(stake) then Rejected(InvalidStake)
    else match DeadlineParts(deadline)
      case None => Rejected(InvalidDeadlineFormat)
      case Some(parts) =>
        var deadlineTs := DeadlineSeconds(parts);
        var nowTs := nowMs / 1000;
        if deadlineTs.Some? && deadlineTs.value <= nowTs then Rejected(DeadlineInPast)
        else Cleared(deadlineTs)
  }

  /**
   * The guard on the deadline: a well-formed deadline with a valid stake is
   * refused as past exactly when its end of day is at or before the current
   * second; otherwise it is sent as that end of day, which then lies after
   * now (or is NaN, which the guard lets through).
   */
  lemma DeadlineGuard(stake: NumberField, deadline: string, nowMs: int)
    requires !StakeRejected(stake) && DeadlineParts(deadline).Some?
    ensures var v := CheckBeforeSubmit(stake, deadline, nowMs);
      var ts := DeadlineSeconds(DeadlineParts(deadline).value);
      && (v == Rejected(DeadlineInPast) <==> ts.Some? && ts.value <= nowMs / 1000)
      && (v.Cleared? ==> v.deadlineSeconds == ts && (ts.Some? ==> ts.value > nowMs / 1000))
  {
  }

  /** A deadline past the representable range (NaN) is never refused as past. */
  lemma UnrepresentableDeadlineClears(stake: NumberField, deadline: string, nowMs: int)
    requires !StakeRejected(stake) && DeadlineParts(deadline).Some?
    requires DeadlineSeconds(DeadlineParts(deadline).value).None?
    ensures CheckBeforeSubmit(stake, deadline, nowMs) == Cleared(None)
  {
  }

  /**
   * A deadline written `YYYY-MM-DD` (year 100 or later) whose end of day
   * lies after now clears the checks, and is sent as that end of day.
   */
  lemma FutureIsoDeadlineClears(stake: NumberField, date: Date, nowMs: int)
    requires !StakeRejected(stake) && ValidDate(date) && date.year >= 100
    requires EndOfDayUtcSeconds(date.year, date.month, date.day).Some?
    requires EndOfDayUtcSeconds(date.year, date.month, date.day).value > nowMs / 1000
    ensures CheckBeforeSubmit(stake, IsoDate(date), nowMs) == Cleared(EndOfDayUtcSeconds(date.year, date.month, date.day))
  {
    IsoDateParts(date);
  }

  /** Three separator-free pieces joined by '-' split back into those three pieces. */
  lemma SplitThree(a: string, b: string, c: string)
    requires '-' !in a && '-' !in b && '-' !in c
    ensures Split(a + "-" + b + "-" + c, '-') == [a, b, c]
  {
    assert a + "-" + b + "-" + c == a + ['-'] + (b + ['-'] + c);
    SplitPrefix(a, '-', b + ['-'] + c);
    SplitPrefix(b, '-', c);
    SplitNoSeparator(c, '-');
  }

  /** A run of digits holds no '-'. */
  lemma DigitsHaveNoDash(s: string)
    requires AllDigits(s)
    ensures '-' !in s
  {
    forall i | 0 <= i < |s| ensures s[i] != '-' {
      assert IsDigit(s[i]);
    }
  }

  /** A zero-padded decimal reads back as its value. */
  lemma DigitPieceNumber(n: nat, width: nat)
    ensures '-' !in PadDecimal(n, width)
    ensures NumberOfPiece(PadDecimal(n, width)) == Some(n)
  {
    var s := PadDecimal(n, width);
    DigitsHaveNoDash(s);
    assert |s| >= 1 by {
      assert |Decimal(n)| >= 1;
    }
    assert IsDigit(s[0]) && IsDigit(s[|s| - 1]);
    TrimUnpadded(s);
    PadDecimalValue(n, width);
  }

  /** The year as toISOString writes it (four digits, or '+' and six digits from 10000) reads back as the year. */
  lemma YearPieceNumber(year: nat)
    requires year >= 1
    ensures '-' !in IsoYear(year)
    ensures NumberOfPiece(IsoYear(year)) == Some(year)
  {
    if year <= 9999 {
      DigitPieceNumber(year, 4);
    } else {
      var digits := PadDecimal(year, 6);
      var y := IsoYear(year);
      assert y == "+" + digits;
      DigitsHaveNoDash(digits);
      assert y[1..] == digits;
      assert |digits| >= 1 by {
        assert |Decimal(year)| >= 1;
      }
      assert IsDigit(y[|y| - 1]);
      TrimUnpadded(y);
      PadDecimalValue(year, 6);
    }
  }

  /** A text splitting into three pieces that read as non-zero numbers is accepted as their date. */
  lemma PartsOfThreePieces(text: string, a: string, b: string, c: string, date: Date)
    requires Split(text, '-') == [a, b, c]
    requires date.year >= 1 && date.month >= 1 && date.day >= 1
    requires NumberOfPiece(a) == Some(date.year as nat)
    requires NumberOfPiece(b) == Some(date.month as nat)
    requires NumberOfPiece(c) == Some(date.day as nat)
    ensures DeadlineParts(text) == Some(date)
  {
  }

  /** The pieces of a date's ISO text read back as that date. */
  lemma IsoDateParts(date: Date)
    requires date.year >= 1 && date.month >= 1 && date.day >= 1
    ensures DeadlineParts(IsoDate(date)) == Some(date)
  {
    var y, m, d := IsoYear(date.year), PadDecimal(date.month, 2), PadDecimal(date.day, 2);
    YearPieceNumber(date.year);
    DigitPieceNumber(date.month, 2);
    DigitPieceNumber(date.day, 2);
    SplitThree(y, m, d);
    PartsOfThreePieces(IsoDate(date), y, m, d, date);
  }

  /**
   * The deadline round trip: a date from year 100 on, written as the
   * extraction endpoint writes it, becomes an on-chain deadline whose
   * calendar date (as the dashboard renders it) is the same text.
   */
  lemma DeadlineRoundTrip(date: Date)
    requires ValidDate(date) && date.year >= 100
    requires EndOfDayUtcSeconds(date.year, date.month, date.day).Some?
    ensures DeadlineParts(IsoDate(date)) == Some(date)
    ensures IsoDateOfEpochSeconds(DeadlineSeconds(date).value) == Some(IsoDate(date))
  {
    IsoDateParts(date);
    EndOfDayRoundTrip(date);
  }

  /** Years 1 to 99 are read as 1901 to 1999, so the date shown back is a 20th-century one. */
  lemma TwoDigitYearDeadline(date: Date)
    requires 1 <= date.year <= 99 && ValidDate(Date(1900 + date.year, date.month, date.day))
    ensures DeadlineParts(IsoDate(date)) == Some(date)
    ensures DeadlineSeconds(date) == EndOfDayUtcSeconds(1900 + date.year, date.month, date.day)
    ensures DeadlineSeconds(date).Some? ==>
      IsoDateOfEpochSeconds(DeadlineSeconds(date).value) == Some(IsoDate(Date(1900 + date.year, date.month, date.day)))
  {
    IsoDateParts(date);
    var full := Date(1900 + date.year, date.month, date.day);
    TwoDigitSeconds(date, full);
    if DeadlineSeconds(date).Some? {
      EndOfDayRoundTrip(full);
    }
  }

  /** The deadline sent for a two-digit year is the one for the same day in the 1900s. */
  lemma TwoDigitSeconds(date: Date, full: Date)
    requires 1 <= date.year <= 99 && full == Date(1900 + date.year, date.month, date.day) && date.month >= 1 && date.day >= 1
    ensures DeadlineSeconds(date) == EndOfDayUtcSeconds(full.year, full.month, full.day)
  {
    TwoDigitYears(date.year, date.month, date.day);
  }

  // ---------------------------------------------------------------------
  // Creating the invoice
  // ---------------------------------------------------------------------

  /** `extractedData.description || extractedData.title` */
  function DescriptionOrTitle(ext: Extraction): (d: string)
    ensures d == ext.title || Some(d) == ext.description
    ensures d == ext.title <==> ext.description.None? || ext.description.value == "" || ext.description.value == ext.title
  {
    if ext.description.Some? && ext.description.value != "" then ext.description.value else ext.title
  }

  /** The record handed to `onCreateInvoice`: id and deadline come from the event, not from local values. */
  function NewInvoice(ext: Extraction, stake: real, event: CreatedEvent, deadline: string, today: string): Invoice {
    Invoice(
      id := Decimal(event.id),
      title := ext.title,
      description := ext.description,
      amount := ext.amount,
      stakeAmount := stake,
      deadline := deadline,
      date := today,
      status := Staked,
      supplier := None)
  }

  /**
   * After the transaction: the created record (if any) and the closing
   * message. A mined transaction without the event, or with an event
   * deadline toISOString rejects, is a failure.
   */
  function Settle(ext: Extraction, stake: real, outcome: SubmitOutcome, today: string): (r: (Option<Invoice>, Content))
    ensures r.0.Some? <==> r.1 == CreatedOnChain
    ensures r.0.Some? <==>
      outcome.Mined? && outcome.event.Some? && IsoDateOfEpochSeconds(outcome.event.value.deadline).Some?
    ensures r.0.Some? ==>
      && r.0.value.id == Decimal(outcome.event.value.id)
      && Some(r.0.value.deadline) == IsoDateOfEpochSeconds(outcome.event.value.deadline)
      && r.0.value.status == Staked
  {
    match outcome
    case SubmitFailed(reason) => (None, TransactionFailed(reason))
    case Mined(None) => (None, TransactionFailed("InvoiceCreated event not found"))
    case Mined(Some(event)) =>
      match IsoDateOfEpochSeconds(event.deadline)
      case None => (None, TransactionFailed("Invalid time value"))
      case Some(deadline) => (Some(NewInvoice(ext, stake, event, deadline, today)), CreatedOnChain)
  }

  // ---------------------------------------------------------------------
  // The dialog
  // ---------------------------------------------------------------------

  class CreateInvoiceModal {
    var messages: seq<Message>
    var input: string
    var isProcessing: bool
    var extractedData: Option<Extraction>
    var step: Step
    var stakeAmount: NumberField
    /** Every value assigned to `isProcessing`, in order. */
    ghost var processingLog: seq<bool>

    /** The log opens with the greeting, and extracted data is held exactly outside the chat step. */
    ghost predicate Valid()
      reads this
    {
      && |messages| >= 1 && messages[0] == Say(Greeting)
      && (step == Chat <==> extractedData.None?)
    }

    constructor ()
      ensures Valid()
      ensures messages == [Say(Greeting)] && input == "" && !isProcessing
      ensures extractedData == None && step == Chat && stakeAmount == Blank && processingLog == []
    {
      messages := [Say(Greeting)];
      input := "";
      isProcessing := false;
      extractedData := None;
      step := Chat;
      stakeAmount := Blank;
      processingLog := [];
    }

    /** The text box's `onChange`. */
    method InputChanged(text: string)
      modifies this`input
      ensures input == text
    {
      input := text;
    }

    /** The stake box's `onChange`. */
    method StakeChanged(field: NumberField)
      modifies this`stakeAmount
      ensures stakeAmount == field
    {
      stakeAmount := field;
    }

    /**
     * `handleSendMessage`: ignored when the input is blank or a request is
     * running; otherwise log the user's text, clear the box, post the text
     * to the endpoint (returned as `sent`), and log exactly one answer.
     * Only a successful extraction stores the data and moves on to review.
     */
    method SendMessage(reply: ExtractReply) returns (sent: Option<string>)
      requires Valid() && step == Chat
      modifies this`messages, this`input, this`isProcessing, this`extractedData, this`step, this`processingLog
      ensures Valid()
      ensures sent.Some? <==> !IsBlank(old(input)) && !old(isProcessing)
      ensures IsBlank(old(input)) || old(isProcessing) ==>
        && messages == old(messages) && input == old(input) && isProcessing == old(isProcessing)
        && extractedData == old(extractedData) && step == old(step) && processingLog == old(processingLog)
      ensures sent.Some? ==> sent.value == old(input) && Exchanged(old(messages), old(input), old(processingLog), reply)
    {
      TrimEmptyIffBlank(input);
      if Trim(input) == [] || isProcessing {
        return None;
      }
      var text := Post(reply);
      sent := Some(text);
    }

    /** The state after posting `text` and receiving `reply`, from the log, the text and the busy-flag history before. */
    ghost predicate Exchanged(before: seq<Message>, text: string, logBefore: seq<bool>, reply: ExtractReply)
      reads this
    {
      && messages == before + [Message(User, UserText(text), false), ReplyTo(reply)]
      && input == "" && !isProcessing && processingLog == logBefore + [true, false]
      && (ExtractionSucceeded(reply) ==> step == Review && extractedData == reply.extracted)
      && (!ExtractionSucceeded(reply) ==> step == Chat && extractedData == None)
    }

    /** The part of `handleSendMessage` after its guard: the request and its answer. */
    method Post(reply: ExtractReply) returns (text: string)
      requires Valid() && step == Chat
      modifies this`messages, this`input, this`isProcessing, this`extractedData, this`step, this`processingLog
      ensures Valid()
      ensures text == old(input) && Exchanged(old(messages), old(input), old(processingLog), reply)
    {
      text := input;
      ghost var before, logBefore := messages, processingLog;
      var userMessage := Message(User, UserText(input), false);
      isProcessing := true;
      processingLog := processingLog + [isProcessing];
      messages := messages + [userMessage];
      input := "";
      var answer: Message;
      match reply {
        case Threw =>
          answer := Say(SomethingWentWrong);
        case Responded(status, extracted) =>
          if !IsOk(status) {
            answer := Say(ServerError(status));
          } else if extracted.None? {
            answer := Say(NothingExtracted);
          } else {
            extractedData := extracted;
            step := Review;
            answer := Message(Assistant, ExtractedSummary(extracted.value), true);
          }
      }
      messages := messages + [answer];
      assert messages == before + [userMessage, answer];
      isProcessing := false;
      processingLog := processingLog + [isProcessing];
      assert processingLog == logBefore + [true, false];
    }

    /** `handleConfirmDetails`: on to the stake step, extracted data untouched. */
    method ConfirmDetails()
      requires Valid() && step == Review
      modifies this`messages, this`step
      ensures Valid()
      ensures step == Stake && messages == old(messages) + [Say(AskStake)]
    {
      step := Stake;
      messages := messages + [Say(AskStake)];
    }

    /** `handleEditDetails`: drop the extracted data and go back to chatting, keeping the log. */
    method EditDetails()
      requires Valid() && step == Review
      modifies this`messages, this`step, this`extractedData
      ensures Valid()
      ensures step == Chat && extractedData == None
      ensures messages == old(messages) + [Say(AskUpdatedDetails)]
    {
      extractedData := None;
      step := Chat;
      messages := messages + [Say(AskUpdatedDetails)];
    }

    /**
     * `handleStakeAndCreate`: run the checks; if one fails, log why and send
     * nothing. Otherwise call `createInvoice` (returned as `call`), and on a
     * confirmed transaction with its event hand the new record to the page
     * (`created`) and close (`closed`); on any failure log it and stay on
     * the stake step for a retry.
     */
    method StakeAndCreate(nowMs: int, outcome: SubmitOutcome, today: string)
      returns (call: Option<CreateCall>, created: Option<Invoice>, closed: bool)
      requires Valid() && step == Stake
      modifies this`messages, this`isProcessing, this`processingLog
      ensures Valid() && step == Stake
      ensures var ext, stake := old(extractedData).value, old(stakeAmount);
        var verdict := CheckBeforeSubmit(stake, ext.deadline, nowMs);
        if verdict.Rejected? then
          && messages == old(messages) + [Say(verdict.reason)]
          && isProcessing == old(isProcessing) && processingLog == old(processingLog)
          && call.None? && created.None? && !closed
        else
          var settled := Settle(ext, stake.value, outcome, today);
          && call == Some(CreateCall(ext.title, DescriptionOrTitle(ext), ext.amount,
                                     verdict.deadlineSeconds, stake.text))
          && messages == old(messages) + [Say(StakingNotice(stake.text)), Say(settled.1)]
          && !isProcessing && processingLog == old(processingLog) + [true, false]
          && created == settled.0 && closed == created.Some?
    {
      call, created, closed := None, None, false;
      var ext, stake := extractedData.value, stakeAmount;
      var verdict := CheckBeforeSubmit(stake, ext.deadline, nowMs);
      if verdict.Rejected? {
        messages := messages + [Say(verdict.reason)];
        return;
      }
      call := Some(CreateCall(ext.title, DescriptionOrTitle(ext), ext.amount, verdict.deadlineSeconds, stake.text));
      created := Submit(ext, stake, outcome, today);
      closed := created.Some?;
    }

    /** The part of `handleStakeAndCreate` after the checks: the transaction and its outcome. */
    method Submit(ext: Extraction, stake: NumberField, outcome: SubmitOutcome, today: string)
      returns (created: Option<Invoice>)
      requires stake.Number?
      modifies this`messages, this`isProcessing, this`processingLog
      ensures var settled := Settle(ext, stake.value, outcome, today);
        && messages == old(messages) + [Say(StakingNotice(stake.text)), Say(settled.1)]
        && !isProcessing && processingLog == old(processingLog) + [true, false]
        && created == settled.0
    {
      ghost var before, logBefore := messages, processingLog;
      isProcessing := true;
      processingLog := processingLog + [isProcessing];
      var notice := Say(StakingNotice(stake.text));
      messages := messages + [notice];
      var settled := Settle(ext, stake.value, outcome, today);
      created := settled.0;
      messages := messages + [Say(settled.1)];
      assert messages == before + [notice, Say(settled.1)];
      isProcessing := false;
      processingLog := processingLog + [isProcessing];
      assert processingLog == logBefore + [true, false];
    }
  }
}
