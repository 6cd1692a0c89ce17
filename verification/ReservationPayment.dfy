/**
 * Rebuilding a reservation's payment fields from its legacy charge
 * (scripts/lib/reservation-payment.ts) and reading them back.
 * Dates are whole seconds; a null date is None.
 */
module ReservationPayment {
  import opened Wrappers

  /** The result of `Number(x)`. */
  datatype Number = NotFinite | Finite(value: real)

  /** The `credits_applied` column once read as JSON: no usable `free_hours` entry, or one. */
  datatype CreditsApplied = NoFreeHours | FreeHours(blocks: Number)

  datatype LegacyCharge = LegacyCharge(
    id: string,
    reservation: string,
    status: Option<string>,
    netAmount: Option<Number>,
    creditsApplied: CreditsApplied,
    paidAt: Option<int>,
    updatedAt: Option<int>,
    createdAt: Option<int>,
    intentId: Option<string>,
    sessionId: Option<string>)

  datatype MappedStatus = Scheduled | Confirmed | Completed | Cancelled

  datatype PaymentFields = PaymentFields(
    paidAt: Option<int>,
    refundedAt: Option<int>,
    cashDueCents: Option<int>,
    creditsUsed: Option<real>,
    recordId: Option<string>)

  datatype Context = Context(status: MappedStatus, updatedAt: Option<int>, durationHours: Option<real>, covered: bool)

  // --- Amounts -------------------------------------------------------------

  /** `Math.round`: halves go up. */
  function Round(x: real): int {
    (x + 0.5).Floor
  }

  function NormalizeCents(raw: Option<Number>): int {
    match raw
    case None => 0
    case Some(NotFinite) => 0
    case Some(Finite(n)) => if n > 10000.0 then Round(n / 100.0) else Round(n)
  }

  function Cents(n: int): Option<Number> {
    Some(Finite(n as real))
  }

  /** A readable amount becomes the nearest whole number of cents, halves going up; any other is none. */
  lemma NormalizesToNearest(n: real)
    ensures var cents := NormalizeCents(Some(Finite(n))) as real;
      if n > 10000.0 then 100.0 * cents - 50.0 <= n < 100.0 * cents + 50.0 else cents - 0.5 <= n < cents + 0.5
    ensures NormalizeCents(None) == NormalizeCents(Some(NotFinite)) == 0
  {
  }

  /** Of the two legacy encodings the plain one is read back up to 10000 cents, the scaled one above 100 cents. */
  lemma NormalizeRecoversIff(cents: nat)
    ensures NormalizeCents(Cents(cents)) == cents <==> cents <= 10000
    ensures NormalizeCents(Cents(100 * cents)) == cents <==> cents > 100 || cents == 0
  {
    assert (cents as real + 0.5).Floor == cents;
    if cents > 10000 {
      assert cents as real / 100.0 + 0.5 < cents as real;
    }
    var scaled := (100 * cents) as real;
    if cents > 100 {
      assert scaled / 100.0 == cents as real;
    } else {
      assert (scaled + 0.5).Floor == 100 * cents;
    }
  }

  /** Ten thousand and one plain cents come back as a hundred. */
  lemma LargePlainAmountIsMisread()
    ensures NormalizeCents(Cents(10001)) == 100
  {
    assert (10001.0 / 100.0 + 0.5).Floor == 100;
  }

  function CreditBlocks(applied: CreditsApplied): real {
    match applied
    case FreeHours(Finite(n)) => n
    case _ => 0.0
  }

  /** Thirty-minute blocks to hours. */
  function CreditBlocksToHours(blocks: real): real {
    blocks * 30.0 / 60.0
  }

  // --- Charge status and record id -----------------------------------------

  function LowerChar(c: char): char {
    if 'A' <= c <= 'Z' then c - 'A' + 'a' else c
  }

  function Lower(s: string): string {
    seq(|s|, i requires 0 <= i < |s| => LowerChar(s[i]))
  }

  function ChargeStatus(c: LegacyCharge): string {
    Lower(c.status.GetOr(""))
  }

  predicate IsRefunded(c: LegacyCharge) {
    ChargeStatus(c) == "refunded"
  }

  predicate IsVoided(c: LegacyCharge) {
    ChargeStatus(c) == "cancelled"
  }

  predicate IsMoney(c: LegacyCharge) {
    NormalizeCents(c.netAmount) > 0
  }

  /** An amount counts as real money from half a cent up. */
  lemma PositiveAmountIff(c: LegacyCharge)
    ensures IsMoney(c) <==> c.netAmount.Some? && c.netAmount.value.Finite? && c.netAmount.value.value >= 0.5
  {
    if c.netAmount.Some? && c.netAmount.value.Finite? {
      NormalizesToNearest(c.netAmount.value.value);
    }
  }

  /** The text is the given one, each letter in either case. */
  ghost predicate ReadsAs(s: Option<string>, lower: string, upper: string)
    requires |lower| == |upper|
  {
    s.Some? && |s.value| == |lower| && forall i :: 0 <= i < |lower| ==> s.value[i] == lower[i] || s.value[i] == upper[i]
  }

  lemma LowerReadsAs(s: string, lower: string, upper: string)
    requires |lower| == |upper| > 0
    requires forall i :: 0 <= i < |lower| ==> 'a' <= lower[i] <= 'z' && upper[i] == lower[i] - 'a' + 'A'
    ensures Lower(s) == lower <==> ReadsAs(Some(s), lower, upper)
  {
    if Lower(s) == lower {
      forall i | 0 <= i < |s| ensures s[i] == lower[i] || s[i] == upper[i] {
        assert Lower(s)[i] == LowerChar(s[i]);
      }
    }
  }

  /** A status is read in whatever case it is written. */
  lemma StatusIgnoresCase(c: LegacyCharge)
    ensures IsRefunded(c) <==> ReadsAs(c.status, "refunded", "REFUNDED")
    ensures IsVoided(c) <==> ReadsAs(c.status, "cancelled", "CANCELLED")
  {
    var s, lower := c.status.GetOr(""), ChargeStatus(c);
    assert |lower| == |s| && forall i :: 0 <= i < |s| ==> lower[i] == LowerChar(s[i]);
    LowerReadsAs(s, "refunded", "REFUNDED");
    LowerReadsAs(s, "cancelled", "CANCELLED");
  }

  predicate Present(s: Option<string>) {
    s.Some? && s.value != ""
  }

  function RecordId(c: LegacyCharge): string {
    if Present(c.intentId) then c.intentId.value
    else if Present(c.sessionId) then c.sessionId.value
    else "legacy_charge_" + c.id
  }

  /** The charge names neither a payment intent nor a checkout session. */
  predicate IsCash(c: LegacyCharge) {
    c.intentId in {None, Some("")} && c.sessionId in {None, Some("")}
  }

  lemma PrefixedDiffer(prefix: string, a: string, b: string)
    ensures prefix + a == prefix + b <==> a == b
  {
    assert (prefix + a)[|prefix|..] == a && (prefix + b)[|prefix|..] == b;
  }

  /**
   * A present intent is the record id, else a present session; charges with neither have the same id exactly
   * when they are the same charge.
   */
  lemma RecordIdCases(c: LegacyCharge, d: LegacyCharge)
    ensures c.intentId.Some? && c.intentId.value != "" ==> RecordId(c) == c.intentId.value
    ensures c.intentId in {None, Some("")} && c.sessionId.Some? && c.sessionId.value != "" ==>
      RecordId(c) == c.sessionId.value
    ensures IsCash(c) ==> RecordId(c) == "legacy_charge_" + c.id
    ensures IsCash(c) && IsCash(d) ==> (RecordId(c) == RecordId(d) <==> c.id == d.id)
  {
    PrefixedDiffer("legacy_charge_", c.id, d.id);
  }

  // --- The derivation ------------------------------------------------------

  predicate IsSettled(status: MappedStatus) {
    status.Confirmed? || status.Completed?
  }

  function Derive(charge: Option<LegacyCharge>, ctx: Context): PaymentFields {
    var empty := PaymentFields(None, None, if IsSettled(ctx.status) then Some(0) else None, None, None);
    if charge == None then
      if IsSettled(ctx.status) && ctx.covered && ctx.durationHours.GetOr(0.0) > 0.0 then
        PaymentFields(None, None, Some(0), ctx.durationHours, None)
      else
        empty
    else
      var c := charge.value;
      var blocks := CreditBlocks(c.creditsApplied);
      var creditsUsed := if blocks > 0.0 then Some(CreditBlocksToHours(blocks)) else None;
      var paidAt := c.paidAt.Or(ctx.updatedAt);
      if IsRefunded(c) && IsMoney(c) then
        PaymentFields(None, c.paidAt.Or(ctx.updatedAt), Some(0), creditsUsed, Some(RecordId(c)))
      else if IsRefunded(c) then
        empty
      else if IsVoided(c) then
        empty
      else if IsMoney(c) then
        PaymentFields(paidAt, None, Some(0), creditsUsed, Some(RecordId(c)))
      else if blocks > 0.0 then
        PaymentFields(None, None, Some(0), creditsUsed, None)
      else
        empty
  }

  // --- What the legacy data says -------------------------------------------

  datatype Settlement = Paid | Refunded | Credits | Comped | Unpaid

  /** Money changed hands and the charge was not voided. */
  predicate MovedMoney(charge: Option<LegacyCharge>) {
    charge.Some? && IsMoney(charge.value) && !IsVoided(charge.value)
  }

  /** Free hours covered the booking: on a standing charge, or through the membership when no charge was kept. */
  predicate CoveredByCredits(charge: Option<LegacyCharge>, ctx: Context) {
    match charge
    case None => IsSettled(ctx.status) && ctx.covered && ctx.durationHours.GetOr(0.0) > 0.0
    case Some(c) => !IsRefunded(c) && !IsVoided(c) && CreditBlocks(c.creditsApplied) > 0.0
  }

  function LegacySettlement(charge: Option<LegacyCharge>, ctx: Context): Settlement {
    if MovedMoney(charge) then if IsRefunded(charge.value) then Refunded else Paid
    else if CoveredByCredits(charge, ctx) then Credits
    else if IsSettled(ctx.status) then Comped
    else Unpaid
  }

  /** A time is on record for the payment. */
  predicate HasTime(charge: Option<LegacyCharge>, ctx: Context) {
    charge.Some? && charge.value.paidAt.Or(ctx.updatedAt).Some?
  }

  // --- Reading the fields back ---------------------------------------------

  /** The payment model the module documents, with `refundedAt` for returned money. */
  function ReadDocumented(f: PaymentFields): Settlement {
    if f.refundedAt.Some? then Refunded
    else if f.paidAt.Some? then Paid
    else if f.cashDueCents == None then Unpaid
    else if f.creditsUsed.GetOr(0.0) > 0.0 then Credits
    else Comped
  }

  /** The documented model recovers the legacy settlement, exactly when moved money has a time. */
  lemma DocumentedReadingRecoversIff(charge: Option<LegacyCharge>, ctx: Context)
    ensures ReadDocumented(Derive(charge, ctx)) == LegacySettlement(charge, ctx)
      <==> (MovedMoney(charge) ==> HasTime(charge, ctx))
  {
    if charge.Some? && CreditBlocks(charge.value.creditsApplied) > 0.0 {
      assert CreditBlocksToHours(CreditBlocks(charge.value.creditsApplied)) > 0.0;
    }
  }

  /** Hours of the booking that credits covered, beside moved money, alone, or through the membership. */
  function CoveredHours(charge: Option<LegacyCharge>, ctx: Context): real {
    match charge
    case None => if CoveredByCredits(charge, ctx) then ctx.durationHours.GetOr(0.0) else 0.0
    case Some(c) =>
      if (MovedMoney(charge) || CoveredByCredits(charge, ctx)) && CreditBlocks(c.creditsApplied) > 0.0
      then CreditBlocks(c.creditsApplied) / 2.0 else 0.0
  }

  lemma RecordIdNotEmpty(c: LegacyCharge)
    ensures RecordId(c) != ""
  {
    assert |"legacy_charge_" + c.id| > 0;
  }

  /**
   * A record is linked exactly when money moved; the derivation never leaves cash owed, nor money both kept and
   * returned.
   */
  lemma RecordLinkedIff(charge: Option<LegacyCharge>, ctx: Context)
    ensures var f := Derive(charge, ctx);
      && (f.recordId.Some? <==> MovedMoney(charge))
      && (f.recordId.Some? ==> f.recordId.value != "" && f.recordId == Some(RecordId(charge.value)))
      && f.cashDueCents.GetOr(0) == 0
      && (f.paidAt == None || f.refundedAt == None)
      && (f.paidAt.Some? || f.refundedAt.Some? ==> f.recordId.Some?)
  {
    if charge.Some? {
      RecordIdNotEmpty(charge.value);
    }
  }

  lemma CreditsAreCoveredHours(charge: Option<LegacyCharge>, ctx: Context)
    ensures Derive(charge, ctx).creditsUsed.GetOr(0.0) == CoveredHours(charge, ctx)
  {
    if charge.Some? {
      var blocks := CreditBlocks(charge.value.creditsApplied);
      assert blocks > 0.0 ==> CreditBlocksToHours(blocks) == blocks / 2.0;
    }
  }

  /** Where moved money has a time, the fields determine the settlement, the covered hours and the payment record. */
  lemma FieldsDetermineHistory(charge: Option<LegacyCharge>, ctx: Context, charge': Option<LegacyCharge>, ctx': Context)
    requires MovedMoney(charge) ==> HasTime(charge, ctx)
    requires MovedMoney(charge') ==> HasTime(charge', ctx')
    requires Derive(charge, ctx) == Derive(charge', ctx')
    ensures LegacySettlement(charge, ctx) == LegacySettlement(charge', ctx')
    ensures CoveredHours(charge, ctx) == CoveredHours(charge', ctx')
    ensures MovedMoney(charge) ==> MovedMoney(charge') && RecordId(charge.value) == RecordId(charge'.value)
  {
    DocumentedReadingRecoversIff(charge, ctx);
    DocumentedReadingRecoversIff(charge', ctx');
    CreditsAreCoveredHours(charge, ctx);
    CreditsAreCoveredHours(charge', ctx');
    RecordLinkedIff(charge, ctx);
    RecordLinkedIff(charge', ctx');
  }

  /** Confirmed and completed bookings are settled; so are those with standing money or credits. */
  lemma CashDueIff(charge: Option<LegacyCharge>, ctx: Context)
    ensures Derive(charge, ctx).cashDueCents in {None, Some(0)}
    ensures Derive(charge, ctx).cashDueCents == Some(0) <==>
      ctx.status in {Confirmed, Completed} || MovedMoney(charge) || CoveredByCredits(charge, ctx)
  {
  }

  /** A charge's free hours are counted in half hours, and given up where it was voided or refunded in nothing. */
  lemma CreditsUsedIff(c: LegacyCharge, n: real, ctx: Context)
    requires c.creditsApplied == FreeHours(Finite(n))
    ensures Derive(Some(c), ctx).creditsUsed.Some?
      <==> n > 0.0 && !IsVoided(c) && (IsRefunded(c) ==> MovedMoney(Some(c)))
    ensures Derive(Some(c), ctx).creditsUsed.Some? ==> 2.0 * Derive(Some(c), ctx).creditsUsed.value == n
  {
  }

  /** Without a charge a settled booking that the membership covers uses its whole length, and no other any. */
  lemma UnchargedCreditsIff(ctx: Context, hours: real)
    ensures Derive(None, ctx).creditsUsed == Some(hours) <==>
      ctx.status in {Confirmed, Completed} && ctx.covered && ctx.durationHours == Some(hours) && hours > 0.0
  {
  }

  /** Moved money is dated by the charge, and by the booking where the charge has no date. */
  lemma MoneyIsDated(c: LegacyCharge, ctx: Context)
    requires MovedMoney(Some(c))
    ensures var f := Derive(Some(c), ctx);
      var date := if IsRefunded(c) then f.refundedAt else f.paidAt;
      && (c.paidAt.Some? ==> date == c.paidAt)
      && (c.paidAt == None ==> date == ctx.updatedAt)
      && (if IsRefunded(c) then f.paidAt else f.refundedAt) == None
  {
  }

  datatype DisplayState = ShowPaid | ShowCashDue | ShowUnpaid | ShowCredits | ShowComped | ShowCancelled | ShowRefunded

  /** `reservationPaymentState`, the reader the app uses, on the statuses the migrator writes. */
  function PaymentState(status: MappedStatus, f: PaymentFields): DisplayState {
    if status.Cancelled? then if Present(f.recordId) then ShowRefunded else ShowCancelled
    else if f.paidAt.Some? then ShowPaid
    else if f.cashDueCents.GetOr(0) > 0 then ShowCashDue
    else if f.cashDueCents == None then ShowUnpaid
    else if f.creditsUsed.GetOr(0.0) > 0.0 then ShowCredits
    else ShowComped
  }

  /** What a faithful display of the settlement would be; a cancelled booking without moved money is just cancelled. */
  function TrueState(s: Settlement, status: MappedStatus): DisplayState {
    match s
    case Refunded => ShowRefunded
    case Paid => ShowPaid
    case Credits => if status.Cancelled? then ShowCancelled else ShowCredits
    case Comped => if status.Cancelled? then ShowCancelled else ShowComped
    case Unpaid => if status.Cancelled? then ShowCancelled else ShowUnpaid
  }

  /** Of a live booking with nothing returned the two readers differ only where cash is still owed. */
  lemma ReadersDifferOnCashDue(status: MappedStatus, f: PaymentFields)
    requires !status.Cancelled? && f.refundedAt == None
    ensures PaymentState(status, f) ==
      if f.paidAt == None && f.cashDueCents.GetOr(0) > 0 then ShowCashDue else TrueState(ReadDocumented(f), status)
  {
  }

  /**
   * The app shows the legacy settlement exactly when moved money was refunded on a cancelled
   * booking, or kept, with a time, on one that was not cancelled.
   */
  lemma AppReadingFaithfulIff(charge: Option<LegacyCharge>, ctx: Context)
    ensures PaymentState(ctx.status, Derive(charge, ctx)) == TrueState(LegacySettlement(charge, ctx), ctx.status)
      <==> (MovedMoney(charge) ==>
              if IsRefunded(charge.value) then ctx.status.Cancelled?
              else !ctx.status.Cancelled? && HasTime(charge, ctx))
  {
    if charge.Some? {
      RecordIdNotEmpty(charge.value);
      if CreditBlocks(charge.value.creditsApplied) > 0.0 {
        assert CreditBlocksToHours(CreditBlocks(charge.value.creditsApplied)) > 0.0;
      }
    }
  }

  /** A paid booking that was cancelled without a refund is shown as refunded. */
  lemma PaidCancelledShowsRefunded()
    ensures var c := LegacyCharge("1", "1", Some("paid"), Cents(2000), NoFreeHours, Some(5), None, None, None, None);
      var ctx := Context(Cancelled, Some(9), Some(1.0), false);
      LegacySettlement(Some(c), ctx) == Paid && PaymentState(ctx.status, Derive(Some(c), ctx)) == ShowRefunded
  {
    var c := LegacyCharge("1", "1", Some("paid"), Cents(2000), NoFreeHours, Some(5), None, None, None, None);
    NormalizeRecoversIff(2000);
    RecordIdNotEmpty(c);
    assert |Lower("paid")| == 4 && |"refunded"| == 8 && |"cancelled"| == 9;
  }

  /** A refunded booking that was not cancelled is shown as comped. */
  lemma RefundedConfirmedShowsComped()
    ensures var c := LegacyCharge("1", "1", Some("refunded"), Cents(2000), NoFreeHours,
                                  Some(5), None, None, None, None);
      var ctx := Context(Confirmed, Some(9), Some(1.0), false);
      LegacySettlement(Some(c), ctx) == Refunded && PaymentState(ctx.status, Derive(Some(c), ctx)) == ShowComped
  {
    NormalizeRecoversIff(2000);
    assert Lower("refunded") == "refunded" && |"refunded"| != |"cancelled"|;
  }
}
