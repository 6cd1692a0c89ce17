/**
 * Choosing one charge per reservation and writing the `reservation` and
 * `payment_cache` tables (`migrateReservations` in scripts/migrate-from-postgres.ts).
 */
module ReservationMigration {
  import opened Wrappers
  import opened ReservationPayment

  // --- Choosing the authoritative charge -----------------------------------

  function ChargeTime(c: LegacyCharge): int {
    c.paidAt.Or(c.updatedAt).Or(c.createdAt).GetOr(0)
  }

  /** The loop's test for replacing the charge kept so far. */
  predicate Replaces(c: LegacyCharge, prev: LegacyCharge) {
    if IsMoney(c) != IsMoney(prev) then IsMoney(c) else ChargeTime(c) >= ChargeTime(prev)
  }

  function Choose(charges: seq<LegacyCharge>): map<string, LegacyCharge> {
    if charges == [] then map[] else
    var chosen, c := Choose(charges[..|charges| - 1]), charges[|charges| - 1];
    if c.reservation !in chosen || Replaces(c, chosen[c.reservation]) then chosen[c.reservation := c] else chosen
  }

  function MoneyRank(c: LegacyCharge): nat {
    if IsMoney(c) then 1 else 0
  }

  /** Real money first, then the later charge time. */
  predicate RanksBelow(c: LegacyCharge, d: LegacyCharge) {
    MoneyRank(c) < MoneyRank(d) || (MoneyRank(c) == MoneyRank(d) && ChargeTime(c) < ChargeTime(d))
  }

  /** Row `i` is the highest-ranked of its reservation, the last one among equals. */
  ghost predicate IsTop(charges: seq<LegacyCharge>, i: nat) {
    && i < |charges|
    && (forall j :: 0 <= j < |charges| && charges[j].reservation == charges[i].reservation ==>
          !RanksBelow(charges[i], charges[j]))
    && (forall j :: i < j < |charges| && charges[j].reservation == charges[i].reservation ==>
          RanksBelow(charges[j], charges[i]))
  }

  lemma TopAfter(init: seq<LegacyCharge>, c: LegacyCharge, i: nat)
    requires IsTop(init, i)
    ensures c.reservation == init[i].reservation && Replaces(c, init[i]) ==> IsTop(init + [c], |init|)
    ensures !(c.reservation == init[i].reservation && Replaces(c, init[i])) ==> IsTop(init + [c], i)
  {
  }

  ghost predicate IsTopOf(charges: seq<LegacyCharge>, r: string, c: LegacyCharge) {
    exists i: nat :: IsTop(charges, i) && charges[i] == c && c.reservation == r
  }

  /** A reservation keeps a charge iff it has one, and the kept charge is its own top-ranked row. */
  lemma {:induction false} ChoosesTop(charges: seq<LegacyCharge>)
    ensures forall r :: r in Choose(charges) <==> exists c :: c in charges && c.reservation == r
    ensures forall r :: r in Choose(charges) ==> IsTopOf(charges, r, Choose(charges)[r])
  {
    if charges == [] {
    } else {
      var n := |charges| - 1;
      var init, c := charges[..n], charges[n];
      assert charges == init + [c];
      ChoosesTop(init);
      var chosen := Choose(charges);
      forall r | r in chosen ensures IsTopOf(charges, r, chosen[r]) {
        if r in Choose(init) {
          var i: nat :| IsTop(init, i) && init[i] == Choose(init)[r] && init[i].reservation == r;
          TopAfter(init, c, i);
          assert charges[i] == init[i];
        } else {
          assert forall j :: 0 <= j < n ==> charges[j] in init;
          assert IsTop(charges, n);
        }
      }
    }
  }

  /** The time a charge is ranked by: when it was paid, else updated, else created, else the epoch. */
  ghost predicate IsRankedAt(c: LegacyCharge, t: int) {
    && (c.paidAt.Some? ==> t == c.paidAt.value)
    && (c.paidAt == None && c.updatedAt.Some? ==> t == c.updatedAt.value)
    && (c.paidAt == None && c.updatedAt == None && c.createdAt.Some? ==> t == c.createdAt.value)
    && (c.paidAt == None && c.updatedAt == None && c.createdAt == None ==> t == 0)
  }

  /** The kept charge is money if any of its reservation's is, and none of its kind is later. */
  lemma KeptChargeIsLatest(charges: seq<LegacyCharge>, d: LegacyCharge, t: int, u: int)
    requires d in charges
    ensures d.reservation in Choose(charges)
    ensures var kept := Choose(charges)[d.reservation];
      && kept in charges && kept.reservation == d.reservation
      && (IsMoney(d) ==> IsMoney(kept))
      && (IsMoney(d) == IsMoney(kept) && IsRankedAt(d, t) && IsRankedAt(kept, u) ==> t <= u)
      && (IsMoney(d) == IsMoney(kept) && d.paidAt.Some? && kept.paidAt.Some? ==> d.paidAt.value <= kept.paidAt.value)
  {
    ChoosesTop(charges);
    var kept := Choose(charges)[d.reservation];
    assert IsTopOf(charges, d.reservation, kept);
    assert IsRankedAt(kept, ChargeTime(kept)) && IsRankedAt(d, ChargeTime(d));
  }

  /** No row of its reservation ranks above it. */
  ghost predicate IsHighest(charges: seq<LegacyCharge>, c: LegacyCharge) {
    c in charges && forall d :: d in charges && d.reservation == c.reservation ==> !RanksBelow(c, d)
  }

  lemma ChosenIsHighest(charges: seq<LegacyCharge>, r: string)
    requires r in Choose(charges)
    ensures IsHighest(charges, Choose(charges)[r]) && Choose(charges)[r].reservation == r
  {
    ChoosesTop(charges);
    assert IsTopOf(charges, r, Choose(charges)[r]);
  }

  /** A highest row that arrives last is the one kept. */
  lemma LastHighestIsChosen(charges: seq<LegacyCharge>, c: LegacyCharge) returns (shuffled: seq<LegacyCharge>)
    requires IsHighest(charges, c)
    ensures multiset(shuffled) == multiset(charges)
    ensures c.reservation in Choose(shuffled) && Choose(shuffled)[c.reservation] == c
  {
    var i :| 0 <= i < |charges| && charges[i] == c;
    var others := charges[..i] + charges[i + 1..];
    assert charges == charges[..i] + [c] + charges[i + 1..];
    shuffled := others + [c];
    assert shuffled[..|others|] == others;
    if c.reservation in Choose(others) {
      ChosenIsHighest(others, c.reservation);
      assert Choose(others)[c.reservation] in charges;
    }
  }

  /** Of each reservation the highest rows are equal. */
  ghost predicate HighestRowsAgree(charges: seq<LegacyCharge>) {
    forall c, d :: IsHighest(charges, c) && IsHighest(charges, d) && c.reservation == d.reservation ==> c == d
  }

  lemma SameRowsSameChoice(charges: seq<LegacyCharge>, shuffled: seq<LegacyCharge>, r: string)
    requires (forall c :: c in charges <==> c in shuffled) && HighestRowsAgree(charges)
    requires r in Choose(charges) && r in Choose(shuffled)
    ensures Choose(charges)[r] == Choose(shuffled)[r]
  {
    ChosenIsHighest(charges, r);
    ChosenIsHighest(shuffled, r);
    assert IsHighest(charges, Choose(shuffled)[r]);
  }

  lemma ShuffleKeepsChoice(charges: seq<LegacyCharge>, shuffled: seq<LegacyCharge>)
    requires multiset(shuffled) == multiset(charges) && HighestRowsAgree(charges)
    ensures Choose(shuffled) == Choose(charges)
  {
    forall c ensures c in charges <==> c in shuffled {
      assert c in charges <==> c in multiset(charges);
      assert c in shuffled <==> c in multiset(shuffled);
    }
    assert Choose(shuffled).Keys == Choose(charges).Keys by {
      ChoosesTop(charges);
      ChoosesTop(shuffled);
    }
    forall r | r in Choose(charges) ensures Choose(shuffled)[r] == Choose(charges)[r] {
      assert r in Choose(charges).Keys;
      SameRowsSameChoice(charges, shuffled, r);
    }
  }

  /** Every order of the charges gives the same choice exactly when each reservation's highest rows are equal. */
  lemma ChoiceIgnoresOrderIff(charges: seq<LegacyCharge>)
    ensures (forall shuffled :: multiset(shuffled) == multiset(charges) ==> Choose(shuffled) == Choose(charges))
      <==> HighestRowsAgree(charges)
  {
    if HighestRowsAgree(charges) {
      forall shuffled | multiset(shuffled) == multiset(charges) ensures Choose(shuffled) == Choose(charges) {
        ShuffleKeepsChoice(charges, shuffled);
      }
    } else {
      var c, d :| IsHighest(charges, c) && IsHighest(charges, d) && c.reservation == d.reservation && c != d;
      var cLast := LastHighestIsChosen(charges, c);
      var dLast := LastHighestIsChosen(charges, d);
      assert Choose(cLast) != Choose(dLast);
    }
  }

  /** Two charges of one reservation paid in the same second: whichever arrives last is kept. */
  lemma TiedChargesMakeOrderMatter()
    ensures var c := LegacyCharge("1", "1", Some("paid"), Cents(2000), NoFreeHours, Some(5), None, None, None, None);
      var d := c.(id := "2");
      c != d && Choose([c, d]) == map["1" := d] && Choose([d, c]) == map["1" := c]
  {
    var c := LegacyCharge("1", "1", Some("paid"), Cents(2000), NoFreeHours, Some(5), None, None, None, None);
    var d := c.(id := "2");
    assert c.id[0] != d.id[0];
    assert [c, d][..1] == [c] && [d, c][..1] == [d] && [c][..0] == [] && [d][..0] == [];
    assert Choose([c]) == map["1" := c] && Choose([d]) == map["1" := d];
  }

  /** The selection loop. */
  method ChooseCharges(charges: seq<LegacyCharge>) returns (chosen: map<string, LegacyCharge>)
    ensures chosen == Choose(charges)
  {
    chosen := map[];
    for i := 0 to |charges|
      invariant chosen == Choose(charges[..i])
    {
      assert charges[..i + 1][..i] == charges[..i];
      var c := charges[i];
      if c.reservation !in chosen {
        chosen := chosen[c.reservation := c];
        continue;
      }
      var prev := chosen[c.reservation];
      var cPaid := NormalizeCents(c.netAmount) > 0;
      var prevPaid := NormalizeCents(prev.netAmount) > 0;
      if if cPaid != prevPaid then cPaid else ChargeTime(c) >= ChargeTime(prev) {
        chosen := chosen[c.reservation := c];
      }
    }
    assert charges[..|charges|] == charges;
  }

  // --- Tables --------------------------------------------------------------

  /** A legacy reservation, with its new id, resolved booker, mapped status and membership coverage. */
  datatype LegacyReservation = LegacyReservation(
    id: string,
    newId: string,
    bookerId: Option<string>,
    status: MappedStatus,
    startsAt: int,
    endsAt: int,
    seriesId: Option<string>,
    updatedAt: Option<int>,
    createdAt: Option<int>,
    covered: bool)

  datatype ReservationRow = ReservationRow(id: string, status: MappedStatus, startsAt: int, seriesId: Option<string>,
                                           payment: PaymentFields)

  datatype CacheStatus = CacheCompleted | CacheRefunded

  datatype CacheRow = CacheRow(id: string, reservationId: string, amountCents: int, status: CacheStatus,
                               paidAt: int, refundedAt: Option<int>)

  /** Rows in insertion order. */
  datatype Tables = Tables(reservations: seq<ReservationRow>, cache: seq<CacheRow>)

  type Chosen = map<string, LegacyCharge>

  /** The row violates no NOT NULL or CHECK constraint; otherwise the insert throws and the migration stops. */
  predicate Accepts(r: LegacyReservation) {
    r.bookerId.Some? && r.updatedAt.Some? && r.createdAt.Some? && r.startsAt < r.endsAt
  }

  function ChargeOf(r: LegacyReservation, chosen: Chosen): Option<LegacyCharge> {
    if r.id in chosen then Some(chosen[r.id]) else None
  }

  function ContextOf(r: LegacyReservation): Context {
    Context(r.status, r.updatedAt, Some((r.endsAt - r.startsAt) as real / 3600.0), r.covered)
  }

  function RowOf(r: LegacyReservation, chosen: Chosen): ReservationRow {
    ReservationRow(r.newId, r.status, r.startsAt, r.seriesId, Derive(ChargeOf(r, chosen), ContextOf(r)))
  }

  /** Two live instances of one series at one start, which the table's partial index forbids. */
  predicate SameSlot(x: ReservationRow, y: ReservationRow) {
    && x.seriesId.Some? && x.seriesId == y.seriesId && x.startsAt == y.startsAt
    && !x.status.Cancelled? && !y.status.Cancelled?
  }

  /** A unique constraint drops the row: the primary key, or one live instance per series and start. */
  predicate Conflicts(rows: seq<ReservationRow>, row: ReservationRow) {
    exists x :: x in rows && (x.id == row.id || SameSlot(x, row))
  }

  /** `INSERT … ON CONFLICT DO NOTHING`. */
  function InsertRow(rows: seq<ReservationRow>, row: ReservationRow): seq<ReservationRow> {
    if Conflicts(rows, row) then rows else rows + [row]
  }

  predicate HasMoney(r: LegacyReservation, chosen: Chosen) {
    r.id in chosen && IsMoney(chosen[r.id])
  }

  function CacheRowOf(r: LegacyReservation, chosen: Chosen): CacheRow
    requires Accepts(r) && HasMoney(r, chosen)
  {
    var c := chosen[r.id];
    CacheRow(RecordId(c), r.newId, NormalizeCents(c.netAmount),
             if IsRefunded(c) then CacheRefunded else CacheCompleted,
             c.paidAt.Or(r.updatedAt).Or(r.createdAt).value,
             if IsRefunded(c) then c.paidAt.Or(r.updatedAt) else None)
  }

  /** A payment is dated by its charge, or where that has no date by the booking, and so is its refund. */
  lemma CacheRowIsDated(r: LegacyReservation, chosen: Chosen)
    requires Accepts(r) && HasMoney(r, chosen)
    ensures var row, c := CacheRowOf(r, chosen), chosen[r.id];
      && Some(row.paidAt) == (if c.paidAt.Some? then c.paidAt else r.updatedAt)
      && row.refundedAt == (if row.status == CacheRefunded then Some(row.paidAt) else None)
      && (row.status == CacheRefunded <==> ReadsAs(c.status, "refunded", "REFUNDED"))
  {
    StatusIgnoresCase(chosen[r.id]);
  }

  /** A confirmed booking without a charge uses credits exactly when the membership covers it, for all its seconds. */
  lemma CoveredBookingUsesItsLength(r: LegacyReservation, chosen: Chosen)
    requires r.id !in chosen && r.status == Confirmed && r.startsAt < r.endsAt
    ensures var used := RowOf(r, chosen).payment.creditsUsed;
      && (used.Some? <==> r.covered)
      && (used.Some? ==> 3600.0 * used.value == (r.endsAt - r.startsAt) as real)
  {
    UnchargedCreditsIff(ContextOf(r), (r.endsAt - r.startsAt) as real / 3600.0);
  }

  predicate Cached(cache: seq<CacheRow>, id: string) {
    exists x :: x in cache && x.id == id
  }

  function WriteReservation(t: Tables, r: LegacyReservation, chosen: Chosen): Tables
    requires Accepts(r)
  {
    Tables(
      InsertRow(t.reservations, RowOf(r, chosen)),
      if HasMoney(r, chosen) && !Cached(t.cache, CacheRowOf(r, chosen).id) then t.cache + [CacheRowOf(r, chosen)]
      else t.cache)
  }

  function WriteAll(t: Tables, rs: seq<LegacyReservation>, chosen: Chosen): Tables
    requires forall r :: r in rs ==> Accepts(r)
  {
    if rs == [] then t
    else
      assert rs[|rs| - 1] in rs;
      WriteReservation(WriteAll(t, rs[..|rs| - 1], chosen), rs[|rs| - 1], chosen)
  }

  const EMPTY := Tables([], [])

  // --- Which reservations are written --------------------------------------

  function Rows(rs: seq<LegacyReservation>, chosen: Chosen): seq<ReservationRow> {
    seq(|rs|, i requires 0 <= i < |rs| => RowOf(rs[i], chosen))
  }

  function InsertRows(rows: seq<ReservationRow>): seq<ReservationRow> {
    if rows == [] then [] else InsertRow(InsertRows(rows[..|rows| - 1]), rows[|rows| - 1])
  }

  /** Row `i` meets no unique conflict when its turn comes, so it is written. */
  predicate Written(rows: seq<ReservationRow>, i: nat)
    requires i < |rows|
  {
    !Conflicts(InsertRows(rows[..i]), rows[i])
  }

  lemma WrittenInPrefix(rows: seq<ReservationRow>, n: nat, i: nat)
    requires i < n <= |rows|
    ensures Written(rows[..n], i) == Written(rows, i) && rows[..n][i] == rows[i]
  {
    assert rows[..n][..i] == rows[..i];
  }

  lemma {:induction false} WrittenRowStays(rows: seq<ReservationRow>, i: nat)
    requires i < |rows| && Written(rows, i)
    ensures rows[i] in InsertRows(rows)
  {
    var n := |rows| - 1;
    if i == n {
    } else {
      WrittenInPrefix(rows, n, i);
      WrittenRowStays(rows[..n], i);
    }
  }

  lemma {:induction false} TableRowWasWritten(rows: seq<ReservationRow>, x: ReservationRow) returns (i: nat)
    requires x in InsertRows(rows)
    ensures i < |rows| && Written(rows, i) && rows[i] == x
  {
    var n := |rows| - 1;
    if x in InsertRows(rows[..n]) {
      i := TableRowWasWritten(rows[..n], x);
      WrittenInPrefix(rows, n, i);
    } else {
      i := n;
    }
  }

  ghost predicate DistinctRowIds(rows: seq<ReservationRow>) {
    forall i, j :: 0 <= i < j < |rows| ==> rows[i].id != rows[j].id
  }

  /** An earlier row has the same slot. */
  predicate RowSlotTaken(rows: seq<ReservationRow>, i: nat)
    requires i < |rows|
  {
    exists k :: 0 <= k < i && SameSlot(rows[k], rows[i])
  }

  lemma UnwrittenSlotIsTaken(rows: seq<ReservationRow>, i: nat)
    requires DistinctRowIds(rows) && i < |rows| && !Written(rows, i)
    ensures RowSlotTaken(rows, i)
  {
    var x :| x in InsertRows(rows[..i]) && (x.id == rows[i].id || SameSlot(x, rows[i]));
    var k := TableRowWasWritten(rows[..i], x);
    assert rows[k] == x && rows[k].id != rows[i].id;
  }

  /** The first row of a slot is written, and blocks the later ones. */
  lemma {:induction false} SlotHasWrittenRow(rows: seq<ReservationRow>, i: nat) returns (j: nat)
    requires DistinctRowIds(rows) && i < |rows| && RowSlotTaken(rows, i)
    ensures j < i && Written(rows, j) && SameSlot(rows[j], rows[i])
  {
    j :| 0 <= j < i && SameSlot(rows[j], rows[i]);
    if !Written(rows, j) {
      UnwrittenSlotIsTaken(rows, j);
      j := SlotHasWrittenRow(rows, j);
    }
  }

  /** With distinct ids a row is written exactly when no earlier row has its slot. */
  lemma RowWrittenIff(rows: seq<ReservationRow>, i: nat)
    requires DistinctRowIds(rows) && i < |rows|
    ensures Written(rows, i) <==> !RowSlotTaken(rows, i)
  {
    if !Written(rows, i) {
      UnwrittenSlotIsTaken(rows, i);
    }
    if RowSlotTaken(rows, i) {
      var j := SlotHasWrittenRow(rows, i);
      WrittenInPrefix(rows, i, j);
      WrittenRowStays(rows[..i], j);
    }
  }

  /** The new ids differ, as those of distinct primary keys do. */
  ghost predicate DistinctNewIds(rs: seq<LegacyReservation>) {
    forall i, j :: 0 <= i < j < |rs| ==> rs[i].newId != rs[j].newId
  }

  /** An earlier reservation is a live instance of the same series at the same start. */
  predicate SlotTaken(rs: seq<LegacyReservation>, i: nat)
    requires i < |rs|
  {
    exists k :: 0 <= k < i
      && rs[k].seriesId.Some? && rs[k].seriesId == rs[i].seriesId && rs[k].startsAt == rs[i].startsAt
      && !rs[k].status.Cancelled? && !rs[i].status.Cancelled?
  }

  /** A reservation is dropped exactly when an earlier one has its slot. */
  lemma ReservationWrittenIff(rs: seq<LegacyReservation>, chosen: Chosen, i: nat)
    requires DistinctNewIds(rs) && i < |rs|
    ensures Written(Rows(rs, chosen), i) <==> !SlotTaken(rs, i)
  {
    var rows := Rows(rs, chosen);
    RowWrittenIff(rows, i);
    if SlotTaken(rs, i) {
      var k :| 0 <= k < i
        && rs[k].seriesId.Some? && rs[k].seriesId == rs[i].seriesId && rs[k].startsAt == rs[i].startsAt
        && !rs[k].status.Cancelled? && !rs[i].status.Cancelled?;
      assert SameSlot(rows[k], rows[i]);
    }
  }

  lemma {:induction false} ReservationsAreRows(rs: seq<LegacyReservation>, chosen: Chosen)
    requires forall r :: r in rs ==> Accepts(r)
    ensures WriteAll(EMPTY, rs, chosen).reservations == InsertRows(Rows(rs, chosen))
  {
    if rs == [] {
    } else {
      var init := rs[..|rs| - 1];
      ReservationsAreRows(init, chosen);
      assert Rows(rs, chosen)[..|rs| - 1] == Rows(init, chosen);
    }
  }

  // --- Which payments are cached -------------------------------------------

  /** Every reservation with money finds a cached payment under its charge's record id. */
  lemma {:induction false} MoneyIsCached(rs: seq<LegacyReservation>, chosen: Chosen, r: LegacyReservation)
    requires (forall x :: x in rs ==> Accepts(x)) && r in rs && HasMoney(r, chosen)
    ensures Cached(WriteAll(EMPTY, rs, chosen).cache, RecordId(chosen[r.id]))
  {
    var init, last := rs[..|rs| - 1], rs[|rs| - 1];
    assert rs == init + [last];
    var before, after := WriteAll(EMPTY, init, chosen).cache, WriteAll(EMPTY, rs, chosen).cache;
    assert forall c :: c in before ==> c in after;
    if r in init {
      MoneyIsCached(init, chosen, r);
    } else if !Cached(before, RecordId(chosen[r.id])) {
      assert after[|after| - 1] == CacheRowOf(r, chosen);
    }
  }

  predicate HasRecord(r: LegacyReservation, chosen: Chosen, id: string) {
    HasMoney(r, chosen) && RecordId(chosen[r.id]) == id
  }

  /** A cached payment is that of the first reservation with money under its record id. */
  lemma {:induction false} CachedIsFirst(rs: seq<LegacyReservation>, chosen: Chosen, c: CacheRow) returns (k: nat)
    requires (forall r :: r in rs ==> Accepts(r)) && c in WriteAll(EMPTY, rs, chosen).cache
    ensures k < |rs| && rs[k] in rs && HasMoney(rs[k], chosen) && c == CacheRowOf(rs[k], chosen)
    ensures forall i :: 0 <= i < k ==> !HasRecord(rs[i], chosen, c.id)
  {
    var n := |rs| - 1;
    var init := rs[..n];
    assert rs[n] in rs;
    if c in WriteAll(EMPTY, init, chosen).cache {
      k := CachedIsFirst(init, chosen, c);
    } else {
      k := n;
      forall i | 0 <= i < n ensures !HasRecord(rs[i], chosen, c.id) {
        assert init[i] == rs[i];
        if HasRecord(rs[i], chosen, c.id) {
          MoneyIsCached(init, chosen, init[i]);
        }
      }
    }
  }

  // --- Agreement between the tables ----------------------------------------

  lemma RowLinksRecord(r: LegacyReservation, chosen: Chosen, id: string)
    ensures RowOf(r, chosen).payment.recordId == Some(id) <==> HasRecord(r, chosen, id) && !IsVoided(chosen[r.id])
  {
    RecordLinkedIff(ChargeOf(r, chosen), ContextOf(r));
  }

  /** Every reservation that links a payment record finds a cached payment under that id. */
  lemma LinkedRecordsAreCached(rs: seq<LegacyReservation>, chosen: Chosen)
    requires forall r :: r in rs ==> Accepts(r)
    ensures var t := WriteAll(EMPTY, rs, chosen);
      forall x :: x in t.reservations && x.payment.recordId.Some? ==> Cached(t.cache, x.payment.recordId.value)
  {
    ReservationsAreRows(rs, chosen);
    var t := WriteAll(EMPTY, rs, chosen);
    forall x | x in t.reservations && x.payment.recordId.Some? ensures Cached(t.cache, x.payment.recordId.value) {
      var i := TableRowWasWritten(Rows(rs, chosen), x);
      RowLinksRecord(rs[i], chosen, x.payment.recordId.value);
      MoneyIsCached(rs, chosen, rs[i]);
    }
  }

  /** Money lies behind reservation `i`, on a charge not voided, and nothing drops its row. */
  predicate KeepsItsLink(rs: seq<LegacyReservation>, chosen: Chosen, i: nat)
    requires i < |rs|
  {
    HasMoney(rs[i], chosen) && !IsVoided(chosen[rs[i].id]) && !SlotTaken(rs, i)
  }

  /** The rows that link a record are those of the reservations that keep their link. */
  lemma LinkingRowIsKept(rs: seq<LegacyReservation>, chosen: Chosen, x: ReservationRow, id: string) returns (i: nat)
    requires (forall r :: r in rs ==> Accepts(r)) && DistinctNewIds(rs)
    requires x in WriteAll(EMPTY, rs, chosen).reservations && x.payment.recordId == Some(id)
    ensures i < |rs| && KeepsItsLink(rs, chosen, i) && HasRecord(rs[i], chosen, id) && x == RowOf(rs[i], chosen)
  {
    ReservationsAreRows(rs, chosen);
    i := TableRowWasWritten(Rows(rs, chosen), x);
    ReservationWrittenIff(rs, chosen, i);
    RowLinksRecord(rs[i], chosen, id);
  }

  lemma KeptRowLinks(rs: seq<LegacyReservation>, chosen: Chosen, i: nat)
    requires (forall r :: r in rs ==> Accepts(r)) && DistinctNewIds(rs)
    requires i < |rs| && KeepsItsLink(rs, chosen, i)
    ensures RowOf(rs[i], chosen) in WriteAll(EMPTY, rs, chosen).reservations
    ensures RowOf(rs[i], chosen).payment.recordId == Some(RecordId(chosen[rs[i].id]))
  {
    ReservationsAreRows(rs, chosen);
    ReservationWrittenIff(rs, chosen, i);
    WrittenRowStays(Rows(rs, chosen), i);
    RowLinksRecord(rs[i], chosen, RecordId(chosen[rs[i].id]));
  }

  /** A reservation and the cached payment it links tell one story. */
  predicate TellOneStory(x: ReservationRow, c: CacheRow) {
    && c.reservationId == x.id
    && (c.status.CacheRefunded? <==> x.payment.refundedAt.Some?)
    && c.refundedAt == x.payment.refundedAt
    && (c.status.CacheCompleted? ==> x.payment.paidAt == Some(c.paidAt))
  }

  /** Every reservation agrees with the cached payment under the record it links. */
  ghost predicate LinkedRowsAgree(t: Tables) {
    forall x, c :: x in t.reservations && c in t.cache && x.payment.recordId == Some(c.id) ==> TellOneStory(x, c)
  }

  /** Two reservations have money under one record. */
  predicate ShareRecord(r: LegacyReservation, s: LegacyReservation, chosen: Chosen) {
    HasMoney(r, chosen) && HasRecord(s, chosen, RecordId(chosen[r.id]))
  }

  lemma OwnRowsAgree(r: LegacyReservation, chosen: Chosen)
    requires Accepts(r) && HasMoney(r, chosen) && !IsVoided(chosen[r.id])
    ensures TellOneStory(RowOf(r, chosen), CacheRowOf(r, chosen))
  {
  }

  lemma SharedRecordClashes(rs: seq<LegacyReservation>, chosen: Chosen, i: nat, j: nat)
    requires (forall r :: r in rs ==> Accepts(r)) && DistinctNewIds(rs)
    requires i < j < |rs| && ShareRecord(rs[i], rs[j], chosen) && KeepsItsLink(rs, chosen, j)
    ensures !LinkedRowsAgree(WriteAll(EMPTY, rs, chosen))
  {
    var t, id := WriteAll(EMPTY, rs, chosen), RecordId(chosen[rs[j].id]);
    KeptRowLinks(rs, chosen, j);
    MoneyIsCached(rs, chosen, rs[j]);
    var c :| c in t.cache && c.id == id;
    var k := CachedIsFirst(rs, chosen, c);
    assert HasRecord(rs[i], chosen, id);
    assert k < j && c.reservationId == rs[k].newId;
    assert !TellOneStory(RowOf(rs[j], chosen), c);
  }

  /**
   * Every linked reservation agrees with its cached payment, exactly when of the reservations with
   * money under one record none but the first keeps its link.
   */
  lemma LinkedRowsAgreeIff(rs: seq<LegacyReservation>, chosen: Chosen)
    requires (forall r :: r in rs ==> Accepts(r)) && DistinctNewIds(rs)
    ensures LinkedRowsAgree(WriteAll(EMPTY, rs, chosen))
      <==> (forall i: nat, j: nat :: i < j < |rs| && ShareRecord(rs[i], rs[j], chosen) ==> !KeepsItsLink(rs, chosen, j))
  {
    var t := WriteAll(EMPTY, rs, chosen);
    if forall i: nat, j: nat :: i < j < |rs| && ShareRecord(rs[i], rs[j], chosen) ==> !KeepsItsLink(rs, chosen, j) {
      forall x, c | x in t.reservations && c in t.cache && x.payment.recordId == Some(c.id) ensures TellOneStory(x, c) {
        var j := LinkingRowIsKept(rs, chosen, x, c.id);
        var k := CachedIsFirst(rs, chosen, c);
        assert k < j ==> ShareRecord(rs[k], rs[j], chosen);
        OwnRowsAgree(rs[k], chosen);
      }
    } else {
      var i: nat, j: nat :| i < j < |rs| && ShareRecord(rs[i], rs[j], chosen) && KeepsItsLink(rs, chosen, j);
      SharedRecordClashes(rs, chosen, i, j);
    }
  }

  // --- Conservation of cents -----------------------------------------------

  /** No two listed reservations have charges under one payment record. */
  ghost predicate DistinctRecords(rs: seq<LegacyReservation>, chosen: Chosen) {
    forall i, j :: 0 <= i < j < |rs| ==> !ShareRecord(rs[i], rs[j], chosen)
  }

  function Total(cache: seq<CacheRow>): int {
    if cache == [] then 0 else Total(cache[..|cache| - 1]) + cache[|cache| - 1].amountCents
  }

  /** The money of the chosen charges, each reservation's counted once. */
  function Received(rs: seq<LegacyReservation>, chosen: Chosen): int {
    if rs == [] then 0 else
    var r := rs[|rs| - 1];
    Received(rs[..|rs| - 1], chosen) + if HasMoney(r, chosen) then NormalizeCents(chosen[r.id].netAmount) else 0
  }

  ghost predicate NewRecord(rs: seq<LegacyReservation>, chosen: Chosen, r: LegacyReservation) {
    forall x :: x in rs ==> !ShareRecord(x, r, chosen)
  }

  lemma DistinctRecordsThen(init: seq<LegacyReservation>, chosen: Chosen, last: LegacyReservation)
    ensures DistinctRecords(init + [last], chosen) <==> DistinctRecords(init, chosen) && NewRecord(init, chosen, last)
  {
    var rs, n := init + [last], |init|;
    assert rs[n] == last && forall i :: 0 <= i < n ==> rs[i] == init[i];
    if DistinctRecords(rs, chosen) {
      forall i, j | 0 <= i < j < n ensures !ShareRecord(init[i], init[j], chosen) {
        assert !ShareRecord(rs[i], rs[j], chosen);
      }
      forall x | x in init ensures !ShareRecord(x, last, chosen) {
        var i :| 0 <= i < n && init[i] == x;
        assert !ShareRecord(rs[i], rs[n], chosen);
      }
    }
    if DistinctRecords(init, chosen) && NewRecord(init, chosen, last) {
      forall i, j | 0 <= i < j <= n ensures !ShareRecord(rs[i], rs[j], chosen) {
        if j < n {
          assert !ShareRecord(init[i], init[j], chosen);
        } else {
          assert init[i] in init;
        }
      }
    }
  }

  /** A payment is already cached under a record id exactly when an earlier reservation's money has that id. */
  lemma CachedIffSeen(rs: seq<LegacyReservation>, chosen: Chosen, r: LegacyReservation)
    requires (forall x :: x in rs ==> Accepts(x)) && HasMoney(r, chosen)
    ensures Cached(WriteAll(EMPTY, rs, chosen).cache, RecordId(chosen[r.id])) <==> !NewRecord(rs, chosen, r)
  {
    var cache := WriteAll(EMPTY, rs, chosen).cache;
    if Cached(cache, RecordId(chosen[r.id])) {
      var c :| c in cache && c.id == RecordId(chosen[r.id]);
      var k := CachedIsFirst(rs, chosen, c);
      assert ShareRecord(rs[k], r, chosen);
    }
    if !NewRecord(rs, chosen, r) {
      var x :| x in rs && ShareRecord(x, r, chosen);
      MoneyIsCached(rs, chosen, x);
    }
  }

  lemma TotalThen(cache: seq<CacheRow>, c: CacheRow)
    ensures Total(cache + [c]) == Total(cache) + c.amountCents
  {
    assert (cache + [c])[..|cache|] == cache;
  }

  /** The cache never holds more than was received, and holds all of it exactly when the record ids are distinct. */
  lemma {:induction false} CentsConservedIff(rs: seq<LegacyReservation>, chosen: Chosen)
    requires forall r :: r in rs ==> Accepts(r)
    ensures Total(WriteAll(EMPTY, rs, chosen).cache) <= Received(rs, chosen)
    ensures Total(WriteAll(EMPTY, rs, chosen).cache) == Received(rs, chosen) <==> DistinctRecords(rs, chosen)
  {
    if rs == [] {
    } else {
      var init, last := rs[..|rs| - 1], rs[|rs| - 1];
      CentsConservedIff(init, chosen);
      assert rs == init + [last];
      DistinctRecordsThen(init, chosen, last);
      assert last in rs;
      if HasMoney(last, chosen) {
        CachedIffSeen(init, chosen, last);
        TotalThen(WriteAll(EMPTY, init, chosen).cache, CacheRowOf(last, chosen));
      }
    }
  }

  /** Every charge with money is a cash charge, charges and reservations have ids of their own. */
  ghost predicate CashOnly(charges: seq<LegacyCharge>, rs: seq<LegacyReservation>) {
    && (forall c :: c in charges && IsMoney(c) ==> c.intentId in {None, Some("")} && c.sessionId in {None, Some("")})
    && (forall i, j :: 0 <= i < j < |charges| ==> charges[i].id != charges[j].id)
    && (forall i, j :: 0 <= i < j < |rs| ==> rs[i].id != rs[j].id)
  }

  lemma CashRecordsDiffer(charges: seq<LegacyCharge>, rs: seq<LegacyReservation>, i: nat, j: nat)
    requires CashOnly(charges, rs) && i < j < |rs|
    ensures !ShareRecord(rs[i], rs[j], Choose(charges))
  {
    var chosen := Choose(charges);
    if HasMoney(rs[i], chosen) && HasMoney(rs[j], chosen) {
      ChosenIsHighest(charges, rs[i].id);
      ChosenIsHighest(charges, rs[j].id);
      var c, d := chosen[rs[i].id], chosen[rs[j].id];
      var k :| 0 <= k < |charges| && charges[k] == c;
      var l :| 0 <= l < |charges| && charges[l] == d;
      assert k != l && c.id != d.id;
      RecordIdCases(c, d);
    }
  }

  /** Cash payments lose no cents. */
  lemma CashIsConserved(charges: seq<LegacyCharge>, rs: seq<LegacyReservation>)
    requires CashOnly(charges, rs) && forall r :: r in rs ==> Accepts(r)
    ensures Total(WriteAll(EMPTY, rs, Choose(charges)).cache) == Received(rs, Choose(charges))
  {
    forall i, j | 0 <= i < j < |rs| ensures !ShareRecord(rs[i], rs[j], Choose(charges)) {
      CashRecordsDiffer(charges, rs, i, j);
    }
    CentsConservedIff(rs, Choose(charges));
  }

  lemma WriteOne(r: LegacyReservation, chosen: Chosen)
    requires Accepts(r) && HasMoney(r, chosen)
    ensures WriteAll(EMPTY, [r], chosen) == Tables([RowOf(r, chosen)], [CacheRowOf(r, chosen)])
  {
    assert [r][..0] == [] && WriteAll(EMPTY, [], chosen) == EMPTY;
    var t := WriteAll(EMPTY, [r], chosen);
    assert t == WriteReservation(EMPTY, r, chosen);
    assert t.reservations == [RowOf(r, chosen)] && t.cache == [CacheRowOf(r, chosen)];
  }

  /** The second of two reservations with one payment record finds the payment cached. */
  lemma WriteTwoOnOneRecord(r: LegacyReservation, s: LegacyReservation, chosen: Chosen)
    requires Accepts(r) && Accepts(s) && r.newId != s.newId && !SameSlot(RowOf(r, chosen), RowOf(s, chosen))
    requires ShareRecord(r, s, chosen)
    ensures WriteAll(EMPTY, [r, s], chosen)
      == Tables([RowOf(r, chosen), RowOf(s, chosen)], [CacheRowOf(r, chosen)])
    ensures Total([CacheRowOf(r, chosen)]) == CacheRowOf(r, chosen).amountCents
    ensures Received([r, s], chosen) == CacheRowOf(r, chosen).amountCents + CacheRowOf(s, chosen).amountCents
  {
    var x, y, c := RowOf(r, chosen), RowOf(s, chosen), CacheRowOf(r, chosen);
    assert [r, s][..1] == [r] && [r][..0] == [] && [c][..0] == [];
    WriteOne(r, chosen);
    assert WriteAll(EMPTY, [r, s], chosen) == WriteReservation(Tables([x], [c]), s, chosen);
    assert !Conflicts([x], y) && InsertRow([x], y) == [x, y];
    assert c in [c] && Cached([c], CacheRowOf(s, chosen).id);
    assert Received([r], chosen) == c.amountCents;
  }

  /** One Stripe session over two bookings: the second finds the first one's payment, and its own money is lost. */
  lemma SharedRecordDisagrees()
    ensures var c := LegacyCharge("1", "1", Some("paid"), Cents(2000), NoFreeHours,
                                  Some(5), None, None, None, Some("cs_1"));
      var d := c.(id := "2", reservation := "2");
      var r := LegacyReservation("1", "a", Some("u"), Confirmed, 0, 1, None, Some(9), Some(9), false);
      var s := r.(id := "2", newId := "b");
      var t := WriteAll(EMPTY, [r, s], map["1" := c, "2" := d]);
      |t.reservations| == 2 && |t.cache| == 1
      && t.reservations[1].payment.recordId == Some(t.cache[0].id) && !TellOneStory(t.reservations[1], t.cache[0])
      && Total(t.cache) == 2000 && Received([r, s], map["1" := c, "2" := d]) == 4000
  {
    var c := LegacyCharge("1", "1", Some("paid"), Cents(2000), NoFreeHours, Some(5), None, None, None, Some("cs_1"));
    var d := c.(id := "2", reservation := "2");
    var r := LegacyReservation("1", "a", Some("u"), Confirmed, 0, 1, None, Some(9), Some(9), false);
    var s := r.(id := "2", newId := "b");
    var chosen := map["1" := c, "2" := d];
    NormalizeRecoversIff(2000);
    assert |Lower("paid")| == 4 && |"refunded"| == 8 && |"cancelled"| == 9;
    assert "1"[0] != "2"[0] && "a"[0] != "b"[0];
    WriteTwoOnOneRecord(r, s, chosen);
  }

  // --- Cached payments that no reservation links ---------------------------

  predicate Linked(t: Tables, c: CacheRow) {
    exists x :: x in t.reservations && x.payment.recordId == Some(c.id)
  }

  /** Some reservation with money under this record keeps its link. */
  predicate RecordKept(rs: seq<LegacyReservation>, chosen: Chosen, id: string) {
    exists j: nat :: j < |rs| && HasRecord(rs[j], chosen, id) && KeepsItsLink(rs, chosen, j)
  }

  ghost predicate EveryPaymentLinked(t: Tables) {
    forall c :: c in t.cache ==> Linked(t, c)
  }

  /** Under every record with money some reservation keeps its link. */
  ghost predicate EveryRecordKept(rs: seq<LegacyReservation>, chosen: Chosen) {
    forall i: nat :: i < |rs| && HasMoney(rs[i], chosen) ==> RecordKept(rs, chosen, RecordId(chosen[rs[i].id]))
  }

  lemma LinkedRecordIsKept(rs: seq<LegacyReservation>, chosen: Chosen, i: nat)
    requires (forall r :: r in rs ==> Accepts(r)) && DistinctNewIds(rs)
    requires i < |rs| && HasMoney(rs[i], chosen) && EveryPaymentLinked(WriteAll(EMPTY, rs, chosen))
    ensures RecordKept(rs, chosen, RecordId(chosen[rs[i].id]))
  {
    var t := WriteAll(EMPTY, rs, chosen);
    MoneyIsCached(rs, chosen, rs[i]);
    var c :| c in t.cache && c.id == RecordId(chosen[rs[i].id]);
    var x :| x in t.reservations && x.payment.recordId == Some(c.id);
    var j := LinkingRowIsKept(rs, chosen, x, c.id);
  }

  lemma KeptRecordIsLinked(rs: seq<LegacyReservation>, chosen: Chosen, c: CacheRow)
    requires (forall r :: r in rs ==> Accepts(r)) && DistinctNewIds(rs)
    requires c in WriteAll(EMPTY, rs, chosen).cache && EveryRecordKept(rs, chosen)
    ensures Linked(WriteAll(EMPTY, rs, chosen), c)
  {
    var k := CachedIsFirst(rs, chosen, c);
    assert RecordKept(rs, chosen, RecordId(chosen[rs[k].id]));
    var j: nat :| j < |rs| && HasRecord(rs[j], chosen, c.id) && KeepsItsLink(rs, chosen, j);
    KeptRowLinks(rs, chosen, j);
  }

  /**
   * Every cached payment is linked, exactly when of the reservations with money under each record
   * one at least has a charge not voided and a slot not taken by an earlier one.
   */
  lemma EveryPaymentLinkedIff(rs: seq<LegacyReservation>, chosen: Chosen)
    requires (forall r :: r in rs ==> Accepts(r)) && DistinctNewIds(rs)
    ensures EveryPaymentLinked(WriteAll(EMPTY, rs, chosen)) <==> EveryRecordKept(rs, chosen)
  {
    if EveryPaymentLinked(WriteAll(EMPTY, rs, chosen)) {
      forall i: nat | i < |rs| && HasMoney(rs[i], chosen) ensures RecordKept(rs, chosen, RecordId(chosen[rs[i].id])) {
        LinkedRecordIsKept(rs, chosen, i);
      }
    }
    if EveryRecordKept(rs, chosen) {
      forall c | c in WriteAll(EMPTY, rs, chosen).cache ensures Linked(WriteAll(EMPTY, rs, chosen), c) {
        KeptRecordIsLinked(rs, chosen, c);
      }
    }
  }

  /** A voided charge with money: its payment is cached, and no reservation links it. */
  lemma VoidedMoneyIsUnlinked()
    ensures var c := LegacyCharge("1", "1", Some("cancelled"), Cents(2000), NoFreeHours,
                                  Some(5), None, None, None, None);
      var r := LegacyReservation("1", "a", Some("u"), Cancelled, 0, 1, None, Some(9), Some(9), false);
      var t := WriteAll(EMPTY, [r], map["1" := c]);
      |t.cache| == 1 && t.cache[0].amountCents == 2000 && t.cache[0].status == CacheCompleted && !Linked(t, t.cache[0])
  {
    var c := LegacyCharge("1", "1", Some("cancelled"), Cents(2000), NoFreeHours, Some(5), None, None, None, None);
    var r := LegacyReservation("1", "a", Some("u"), Cancelled, 0, 1, None, Some(9), Some(9), false);
    var chosen := map["1" := c];
    NormalizeRecoversIff(2000);
    assert Lower("cancelled") == "cancelled" && |"cancelled"| != |"refunded"|;
    WriteOne(r, chosen);
    RowLinksRecord(r, chosen, RecordId(c));
  }

  // --- Writing the same reservations again ---------------------------------

  /** Writing the reservation changes neither table. */
  predicate IsAlreadyWritten(t: Tables, r: LegacyReservation, chosen: Chosen) {
    Conflicts(t.reservations, RowOf(r, chosen)) && (HasMoney(r, chosen) ==> Cached(t.cache, RecordId(chosen[r.id])))
  }

  ghost predicate Extends(t: Tables, t': Tables) {
    (forall x :: x in t.reservations ==> x in t'.reservations) && (forall c :: c in t.cache ==> c in t'.cache)
  }

  lemma WritingSettles(t: Tables, r: LegacyReservation, chosen: Chosen)
    requires Accepts(r)
    ensures Extends(t, WriteReservation(t, r, chosen)) && IsAlreadyWritten(WriteReservation(t, r, chosen), r, chosen)
  {
    var t' := WriteReservation(t, r, chosen);
    if !Conflicts(t.reservations, RowOf(r, chosen)) {
      assert t'.reservations[|t.reservations|] == RowOf(r, chosen);
    }
    if HasMoney(r, chosen) && !Cached(t.cache, RecordId(chosen[r.id])) {
      assert t'.cache[|t.cache|] == CacheRowOf(r, chosen);
    }
  }

  lemma SettledStaysSettled(t: Tables, t': Tables, r: LegacyReservation, chosen: Chosen)
    requires Extends(t, t') && IsAlreadyWritten(t, r, chosen)
    ensures IsAlreadyWritten(t', r, chosen)
  {
  }

  lemma {:induction false} WritingAllSettles(t: Tables, rs: seq<LegacyReservation>, chosen: Chosen)
    requires forall r :: r in rs ==> Accepts(r)
    ensures Extends(t, WriteAll(t, rs, chosen))
    ensures forall r :: r in rs ==> IsAlreadyWritten(WriteAll(t, rs, chosen), r, chosen)
  {
    if rs == [] {
    } else {
      var init, last := rs[..|rs| - 1], rs[|rs| - 1];
      assert last in rs;
      WritingAllSettles(t, init, chosen);
      var mid := WriteAll(t, init, chosen);
      WritingSettles(mid, last, chosen);
      forall r | r in init ensures IsAlreadyWritten(WriteReservation(mid, last, chosen), r, chosen) {
        SettledStaysSettled(mid, WriteReservation(mid, last, chosen), r, chosen);
      }
    }
  }

  lemma {:induction false} SettledAreSkipped(t: Tables, rs: seq<LegacyReservation>, chosen: Chosen)
    requires forall r :: r in rs ==> Accepts(r) && IsAlreadyWritten(t, r, chosen)
    ensures WriteAll(t, rs, chosen) == t
  {
    if rs == [] {
    } else {
      SettledAreSkipped(t, rs[..|rs| - 1], chosen);
      assert rs[|rs| - 1] in rs;
    }
  }

  /** From any tables, writing the same reservations a second time changes neither. */
  lemma SecondWriteChangesNothing(t: Tables, rs: seq<LegacyReservation>, chosen: Chosen)
    requires forall r :: r in rs ==> Accepts(r)
    ensures WriteAll(WriteAll(t, rs, chosen), rs, chosen) == WriteAll(t, rs, chosen)
  {
    WritingAllSettles(t, rs, chosen);
    SettledAreSkipped(WriteAll(t, rs, chosen), rs, chosen);
  }

  // --- The loop as the script runs it --------------------------------------

  /** `processed` counts the reservations written before an insert threw, or all of them. */
  method WriteReservations(start: Tables, rs: seq<LegacyReservation>, chosen: Chosen)
    returns (t: Tables, processed: nat)
    ensures processed <= |rs| && forall r :: r in rs[..processed] ==> Accepts(r)
    ensures processed < |rs| ==> !Accepts(rs[processed])
    ensures t == WriteAll(start, rs[..processed], chosen)
  {
    t, processed := start, 0;
    while processed < |rs|
      invariant processed <= |rs| && forall r :: r in rs[..processed] ==> Accepts(r)
      invariant t == WriteAll(start, rs[..processed], chosen)
    {
      var r := rs[processed];
      if !Accepts(r) {
        return;
      }
      var charge := ChargeOf(r, chosen);
      var payment := Derive(charge, ContextOf(r));
      var row := ReservationRow(r.newId, r.status, r.startsAt, r.seriesId, payment);
      var before := t;
      if !Conflicts(t.reservations, row) {
        t := t.(reservations := t.reservations + [row]);
      }
      if charge.Some? && NormalizeCents(charge.value.netAmount) > 0 {
        var c := charge.value;
        var refunded := IsRefunded(c);
        var cached := CacheRow(RecordId(c), r.newId, NormalizeCents(c.netAmount),
                               if refunded then CacheRefunded else CacheCompleted,
                               c.paidAt.Or(r.updatedAt).Or(r.createdAt).value,
                               if refunded then c.paidAt.Or(r.updatedAt) else None);
        if !Cached(t.cache, cached.id) {
          t := t.(cache := t.cache + [cached]);
        }
      }
      assert rs[..processed + 1][..processed] == rs[..processed];
      assert t == WriteReservation(before, r, chosen);
      processed := processed + 1;
    }
  }

  /** From the legacy rows to the two tables: what is cached, linked and conserved by a run that completes. */
  method MigrateReservations(charges: seq<LegacyCharge>, rs: seq<LegacyReservation>)
    returns (t: Tables, processed: nat)
    ensures processed <= |rs|
    ensures forall i :: 0 <= i < processed ==>
      rs[i].bookerId.Some? && rs[i].updatedAt.Some? && rs[i].createdAt.Some? && rs[i].startsAt < rs[i].endsAt
    ensures processed < |rs| ==>
      var r := rs[processed];
      r.bookerId == None || r.updatedAt == None || r.createdAt == None || r.endsAt <= r.startsAt
    ensures forall x :: x in t.reservations && x.payment.recordId.Some? ==> Cached(t.cache, x.payment.recordId.value)
    ensures Total(t.cache) == Received(rs[..processed], Choose(charges))
      <==> DistinctRecords(rs[..processed], Choose(charges))
    ensures CashOnly(charges, rs) ==> Total(t.cache) == Received(rs[..processed], Choose(charges))
  {
    var chosen := ChooseCharges(charges);
    t, processed := WriteReservations(EMPTY, rs, chosen);
    LinkedRecordsAreCached(rs[..processed], chosen);
    CentsConservedIff(rs[..processed], chosen);
    if CashOnly(charges, rs) {
      CashIsConserved(charges, rs[..processed]);
    }
    forall i | 0 <= i < processed ensures Accepts(rs[i]) {
      assert rs[i] in rs[..processed];
    }
  }
}
