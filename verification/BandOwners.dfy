/**
 * The `band` and `band_member` tables and the one-off repair that brings them
 * into agreement about who owns a band (scripts/backfill-band-owners.ts).
 */
module BandOwners {
  import opened Wrappers

  // --- Tables --------------------------------------------------------------

  datatype Band = Band(id: string, slug: string, ownerId: string, deleted: bool)

  /** What a `band_member` row holds besides its unique (band, user) pair. */
  datatype Member = Member(id: string, role: string, position: Option<string>, status: string)

  type Key = (string, string)
  type Members = map<Key, Member>

  predicate IsOwner(members: Members, k: Key) {
    k in members && members[k].role == "owner"
  }

  predicate IsActiveOwner(members: Members, k: Key) {
    IsOwner(members, k) && members[k].status == "active"
  }

  /** The owner rows of a band that belong to somebody else than `user`. */
  function OtherOwners(members: Members, k: Key): set<Key> {
    set x | x in members.Keys && x.0 == k.0 && x.1 != k.1 && members[x].role == "owner"
  }

  predicate RowIdTaken(members: Members, id: string) {
    exists k :: k in members && members[k].id == id
  }

  /** The band's recorded owner has no usable owner row, and nobody else claims one. */
  predicate NeedsRepair(members: Members, k: Key) {
    OtherOwners(members, k) == {} && !IsActiveOwner(members, k)
  }

  // --- What a repair is ----------------------------------------------------

  /** `after` repairs exactly the pairs of `targets`: each becomes an active owner row, all else stays. */
  ghost predicate Repaired(before: Members, targets: set<Key>, after: Members) {
    && after.Keys == before.Keys + targets
    && (forall k :: k in targets ==> IsActiveOwner(after, k))
    && (forall k :: k in targets && k in before ==> after[k] == before[k].(role := "owner", status := "active"))
    && (forall k :: k in targets && k !in before ==> after[k].position == None)
    && (forall k :: k in before && k !in targets ==> after[k] == before[k])
  }

  /** Two outcomes from one starting table that differ in nothing but the ids of inserted rows. */
  ghost predicate SameRelation(before: Members, a: Members, b: Members) {
    && a.Keys == b.Keys
    && (forall k :: k in a ==> a[k].role == b[k].role && a[k].status == b[k].status && a[k].position == b[k].position)
    && (forall k :: k in before && k in a ==> a[k] == b[k])
  }

  lemma RepairedThen(m0: Members, first: set<Key>, m1: Members, rest: set<Key>, m2: Members)
    requires Repaired(m0, first, m1) && Repaired(m1, rest, m2) && first !! rest
    ensures Repaired(m0, first + rest, m2)
  {
  }

  /** A band none of whose pairs is a target keeps its rows and its owner claims. */
  lemma UntouchedBand(before: Members, targets: set<Key>, after: Members, k: Key)
    requires Repaired(before, targets, after)
    requires forall t :: t in targets ==> t.0 != k.0
    ensures forall x: Key :: x.0 == k.0 ==> (x in after <==> x in before) && (x in before ==> after[x] == before[x])
    ensures OtherOwners(after, k) == OtherOwners(before, k)
    ensures NeedsRepair(after, k) == NeedsRepair(before, k)
  {
  }

  /** If only bands without a rival owner are targeted, a repaired band has its recorded owner alone. */
  lemma RepairedIsSoleOwner(before: Members, targets: set<Key>, after: Members, k: Key)
    requires Repaired(before, targets, after) && k in targets
    requires OtherOwners(before, k) == {}
    requires forall t :: t in targets && t.0 == k.0 ==> t == k
    ensures IsActiveOwner(after, k) && OtherOwners(after, k) == {}
  {
    assert OtherOwners(after, k) <= OtherOwners(before, k);
  }

  // --- The drift query and its partition -----------------------------------

  datatype DriftRow = DriftRow(bandId: string, slug: string, ownerId: string,
                               memberRole: Option<string>, memberStatus: Option<string>, otherOwnerRows: nat)

  function Pair(b: Band): Key { (b.id, b.ownerId) }

  function RowPair(r: DriftRow): Key { (r.bandId, r.ownerId) }

  predicate Drifts(members: Members, b: Band) {
    !b.deleted && !IsActiveOwner(members, Pair(b))
  }

  function ToDriftRow(members: Members, b: Band): DriftRow {
    var k := Pair(b);
    DriftRow(b.id, b.slug, b.ownerId,
             if k in members then Some(members[k].role) else None,
             if k in members then Some(members[k].status) else None,
             |OtherOwners(members, k)|)
  }

  /** What the query returns for one band: one line or none. */
  function DriftLine(b: Band, members: Members): seq<DriftRow> {
    if Drifts(members, b) then [ToDriftRow(members, b)] else []
  }

  /** `bands` lists the band table in the query's slug order. */
  function DriftQuery(bands: seq<Band>, members: Members): seq<DriftRow> {
    if bands == [] then [] else DriftLine(bands[0], members) + DriftQuery(bands[1..], members)
  }

  predicate IsHexOrDash(c: char) {
    '0' <= c <= '9' || 'a' <= c <= 'f' || 'A' <= c <= 'F' || c == '-'
  }

  predicate IsUuidShaped(id: string) {
    |id| == 36 && forall c :: c in id ==> IsHexOrDash(c)
  }

  /** Thirty-six characters, each a hexadecimal digit in either case or a dash. */
  lemma IsUuidShapedIff(id: string)
    ensures IsUuidShaped(id) <==> |id| == 36 && forall i :: 0 <= i < |id| ==> id[i] in "0123456789abcdefABCDEF-"
  {
    forall c | IsHexOrDash(c) ensures c in "0123456789abcdefABCDEF-" {
      var text := "0123456789abcdefABCDEF-";
      if '0' <= c <= '9' {
        assert text[(c - '0') as int] == c;
      } else if 'a' <= c <= 'f' {
        assert text[10 + (c - 'a') as int] == c;
      } else if 'A' <= c <= 'F' {
        assert text[16 + (c - 'A') as int] == c;
      } else {
        assert text[22] == c;
      }
    }
  }

  datatype Action = Promote | Insert | Skip

  function Classify(r: DriftRow): Action {
    if !IsUuidShaped(r.bandId) || !IsUuidShaped(r.ownerId) then Skip
    else if r.otherOwnerRows > 0 then Skip
    else if r.memberRole == None then Insert
    else Promote
  }

  /** The rows of one class, in query order. */
  function OfAction(rows: seq<DriftRow>, a: Action): seq<DriftRow> {
    if rows == [] then []
    else OfAction(rows[..|rows| - 1], a) + if Classify(rows[|rows| - 1]) == a then [rows[|rows| - 1]] else []
  }

  function Targets(rows: seq<DriftRow>): set<Key> {
    set r | r in rows && Classify(r) != Skip :: RowPair(r)
  }

  ghost predicate DistinctBands(bands: seq<Band>) {
    forall i, j :: 0 <= i < j < |bands| ==> bands[i].id != bands[j].id
  }

  ghost predicate DistinctRows(rows: seq<DriftRow>) {
    forall i, j :: 0 <= i < j < |rows| ==> rows[i].bandId != rows[j].bandId
  }

  lemma {:induction false} DriftQueryRows(bands: seq<Band>, members: Members)
    ensures forall r :: r in DriftQuery(bands, members) <==>
      exists b :: b in bands && Drifts(members, b) && r == ToDriftRow(members, b)
    ensures DistinctBands(bands) ==> DistinctRows(DriftQuery(bands, members))
  {
    if bands == [] {
    } else {
      var rest := bands[1..];
      DriftQueryRows(rest, members);
      var rows := DriftQuery(rest, members);
      assert forall b :: b in bands <==> b == bands[0] || b in rest;
      if DistinctBands(bands) {
        forall i | 0 <= i < |rows| ensures rows[i].bandId != bands[0].id {
          assert rows[i] in rows;
          var b :| b in rest && Drifts(members, b) && rows[i] == ToDriftRow(members, b);
        }
      }
    }
  }

  lemma {:induction false} OfActionRows(rows: seq<DriftRow>, a: Action)
    ensures forall r :: r in OfAction(rows, a) <==> r in rows && Classify(r) == a
    ensures DistinctRows(rows) ==> DistinctRows(OfAction(rows, a))
  {
    if rows == [] {
    } else {
      var init, last := rows[..|rows| - 1], rows[|rows| - 1];
      OfActionRows(init, a);
      assert rows == init + [last];
      var kept := OfAction(init, a);
      if DistinctRows(rows) {
        forall i | 0 <= i < |kept| ensures kept[i].bandId != last.bandId {
          assert kept[i] in kept;
        }
      }
    }
  }

  lemma {:induction false} OfActionConcat(rows: seq<DriftRow>, more: seq<DriftRow>, a: Action)
    ensures OfAction(rows + more, a) == OfAction(rows, a) + OfAction(more, a)
  {
    if more == [] {
      assert rows + more == rows;
    } else {
      var init := more[..|more| - 1];
      OfActionConcat(rows, init, a);
      assert (rows + more)[..|rows + more| - 1] == rows + init;
    }
  }

  lemma {:induction false} OfActionDisjoint(rows: seq<DriftRow>, a: Action, b: Action)
    requires a != b
    ensures OfAction(OfAction(rows, a), b) == []
  {
    if rows == [] {
    } else {
      var init, last := rows[..|rows| - 1], rows[|rows| - 1];
      OfActionDisjoint(init, a, b);
      OfActionConcat(OfAction(init, a), if Classify(last) == a then [last] else [], b);
    }
  }

  predicate IsRepairable(members: Members, b: Band) {
    !b.deleted && IsUuidShaped(b.id) && IsUuidShaped(b.ownerId) && NeedsRepair(members, Pair(b))
  }

  /** The planned repairs are the live, well-formed bands in need of one. */
  lemma TargetsOfQuery(bands: seq<Band>, members: Members)
    ensures forall k :: k in Targets(DriftQuery(bands, members)) <==>
      exists b :: b in bands && IsRepairable(members, b) && k == Pair(b)
  {
    DriftQueryRows(bands, members);
    var rows := DriftQuery(bands, members);
    forall b | b in bands && IsRepairable(members, b)
      ensures Pair(b) in Targets(rows)
    {
      var r := ToDriftRow(members, b);
      assert r in rows && Classify(r) != Skip && RowPair(r) == Pair(b);
    }
    forall k | k in Targets(rows)
      ensures exists b :: b in bands && IsRepairable(members, b) && k == Pair(b)
    {
      var r :| r in rows && Classify(r) != Skip && RowPair(r) == k;
      var b :| b in bands && Drifts(members, b) && r == ToDriftRow(members, b);
      assert OtherOwners(members, Pair(b)) == {};
    }
  }

  // --- SQL statements ------------------------------------------------------

  datatype Statement = UpdateRow(pair: Key) | InsertRow(id: string, pair: Key)

  /**
   * One statement against the table; None is a unique-constraint violation.
   * `indexed` says whether `idx_band_member_single_owner` exists yet.
   */
  function Execute(members: Members, s: Statement, indexed: bool): Option<Members> {
    match s
    case UpdateRow(k) =>
      if k !in members then Some(members)
      else if indexed && OtherOwners(members, k) != {} then None
      else Some(members[k := members[k].(role := "owner", status := "active")])
    case InsertRow(id, k) =>
      if k in members || RowIdTaken(members, id) || (indexed && OtherOwners(members, k) != {}) then None
      else Some(members[k := Member(id, "owner", None, "active")])
  }

  function ExecuteAll(members: Members, statements: seq<Statement>, indexed: bool): Option<Members>
    decreases |statements|
  {
    if statements == [] then Some(members)
    else
      match Execute(members, statements[0], indexed)
      case None => None
      case Some(m) => ExecuteAll(m, statements[1..], indexed)
  }

  function Updates(rows: seq<DriftRow>): seq<Statement> {
    seq(|rows|, i requires 0 <= i < |rows| => UpdateRow(RowPair(rows[i])))
  }

  /** `uuid` stands for successive `randomUUID()` results. */
  function Inserts(rows: seq<DriftRow>, uuid: nat -> string): seq<Statement> {
    seq(|rows|, i requires 0 <= i < |rows| => InsertRow(uuid(i), RowPair(rows[i])))
  }

  function Plan(rows: seq<DriftRow>, uuid: nat -> string): seq<Statement> {
    Updates(OfAction(rows, Promote)) + Inserts(OfAction(rows, Insert), uuid)
  }

  /** The statement can run on this table and will repair its pair. */
  ghost predicate Enabled(members: Members, s: Statement) {
    && OtherOwners(members, s.pair) == {}
    && (s.UpdateRow? ==> s.pair in members)
    && (s.InsertRow? ==> s.pair !in members && !RowIdTaken(members, s.id))
  }

  ghost predicate Independent(statements: seq<Statement>) {
    forall i, j :: 0 <= i < j < |statements| ==>
      && statements[i].pair.0 != statements[j].pair.0
      && (statements[i].InsertRow? && statements[j].InsertRow? ==> statements[i].id != statements[j].id)
  }

  function Pairs(statements: seq<Statement>): set<Key> {
    set s | s in statements :: s.pair
  }

  lemma ExecuteRepairs(members: Members, s: Statement, indexed: bool)
    requires Enabled(members, s)
    ensures Execute(members, s, indexed).Some?
    ensures Repaired(members, {s.pair}, Execute(members, s, indexed).value)
    ensures s.UpdateRow? ==> forall id :: RowIdTaken(Execute(members, s, indexed).value, id) ==> RowIdTaken(members, id)
    ensures s.InsertRow? ==>
      forall id :: RowIdTaken(Execute(members, s, indexed).value, id) ==> RowIdTaken(members, id) || id == s.id
  {
    var after := Execute(members, s, indexed).value;
    forall id | RowIdTaken(after, id)
      ensures RowIdTaken(members, id) || (s.InsertRow? && id == s.id)
    {
      var k :| k in after && after[k].id == id;
      if k in members {
        assert members[k].id == id;
      }
    }
  }

  lemma StaysEnabled(members: Members, s: Statement, indexed: bool, x: Statement)
    requires Enabled(members, s) && Enabled(members, x) && Independent([s, x])
    ensures Execute(members, s, indexed).Some? && Enabled(Execute(members, s, indexed).value, x)
  {
    ExecuteRepairs(members, s, indexed);
    assert [s, x][0] == s && [s, x][1] == x;
    UntouchedBand(members, {s.pair}, Execute(members, s, indexed).value, x.pair);
  }

  /** After the first statement the rest are still independent and enabled. */
  lemma RestStaysEnabled(members: Members, statements: seq<Statement>, indexed: bool)
    requires statements != [] && Independent(statements)
    requires forall s :: s in statements ==> Enabled(members, s)
    ensures Execute(members, statements[0], indexed).Some?
    ensures Independent(statements[1..])
    ensures forall x :: x in statements[1..] ==> Enabled(Execute(members, statements[0], indexed).value, x)
    ensures statements[0].pair !in Pairs(statements[1..])
    ensures Pairs(statements) == {statements[0].pair} + Pairs(statements[1..])
  {
    var s, rest := statements[0], statements[1..];
    assert s in statements;
    ExecuteRepairs(members, s, indexed);
    forall i | 0 <= i < |rest|
      ensures Enabled(Execute(members, s, indexed).value, rest[i]) && rest[i].pair != s.pair
    {
      assert statements[i + 1] == rest[i];
      StaysEnabled(members, s, indexed, rest[i]);
    }
    assert forall x :: x in statements <==> x == s || x in rest;
  }

  /** Independent enabled statements all succeed, and together repair exactly their pairs. */
  lemma {:induction false} ExecuteAllRepairs(members: Members, statements: seq<Statement>, indexed: bool)
    requires Independent(statements)
    requires forall s :: s in statements ==> Enabled(members, s)
    ensures ExecuteAll(members, statements, indexed).Some?
    ensures Repaired(members, Pairs(statements), ExecuteAll(members, statements, indexed).value)
    decreases |statements|
  {
    if statements == [] {
    } else {
      var s, rest := statements[0], statements[1..];
      RestStaysEnabled(members, statements, indexed);
      ExecuteRepairs(members, s, indexed);
      var m := Execute(members, s, indexed).value;
      ExecuteAllRepairs(m, rest, indexed);
      RepairedThen(members, {s.pair}, m, Pairs(rest), ExecuteAll(m, rest, indexed).value);
    }
  }

  /** As many statements as pairs they concern. */
  lemma {:induction false} PairsOfIndependent(statements: seq<Statement>)
    requires Independent(statements)
    ensures |Pairs(statements)| == |statements|
  {
    if statements == [] {
    } else {
      var init, last := statements[..|statements| - 1], statements[|statements| - 1];
      assert statements == init + [last];
      PairsOfIndependent(init);
      forall s | s in init ensures s.pair != last.pair {
        var i :| 0 <= i < |init| && init[i] == s;
        assert statements[i] == s && statements[|init|] == last;
      }
      assert Pairs(statements) == Pairs(init) + {last.pair};
    }
  }

  /** Successive UUIDs differ from each other and from every row id in use. */
  ghost predicate FreshIds(uuid: nat -> string, members: Members) {
    && (forall i, j :: 0 <= i < j ==> uuid(i) != uuid(j))
    && (forall i :: !RowIdTaken(members, uuid(i)))
  }

  /** A row of the query that is not skipped stands for a pair nobody else claims. */
  lemma PlannedRow(bands: seq<Band>, members: Members, r: DriftRow)
    requires r in DriftQuery(bands, members) && Classify(r) != Skip
    ensures OtherOwners(members, RowPair(r)) == {}
    ensures Classify(r) == Promote <==> RowPair(r) in members
    ensures RowPair(r) in Targets(DriftQuery(bands, members))
  {
    DriftQueryRows(bands, members);
    var b :| b in bands && Drifts(members, b) && r == ToDriftRow(members, b);
    assert RowPair(r) == Pair(b);
  }

  lemma PromoteAndInsertDiffer(rows: seq<DriftRow>, p: DriftRow, n: DriftRow)
    requires DistinctRows(rows) && p in OfAction(rows, Promote) && n in OfAction(rows, Insert)
    ensures p.bandId != n.bandId
  {
    OfActionRows(rows, Promote);
    OfActionRows(rows, Insert);
    var x :| 0 <= x < |rows| && rows[x] == p;
    var y :| 0 <= y < |rows| && rows[y] == n;
    assert x != y;
  }

  lemma PlanIsIndependent(rows: seq<DriftRow>, uuid: nat -> string, members: Members)
    requires DistinctRows(rows) && FreshIds(uuid, members)
    ensures Independent(Plan(rows, uuid))
  {
    OfActionRows(rows, Promote);
    OfActionRows(rows, Insert);
    var p, n := OfAction(rows, Promote), OfAction(rows, Insert);
    forall i, j | 0 <= i < |p| && 0 <= j < |n| ensures p[i].bandId != n[j].bandId {
      PromoteAndInsertDiffer(rows, p[i], n[j]);
    }
  }

  lemma PlanPairs(rows: seq<DriftRow>, uuid: nat -> string)
    ensures Pairs(Plan(rows, uuid)) == Targets(rows)
  {
    OfActionRows(rows, Promote);
    OfActionRows(rows, Insert);
    var p, n, plan := OfAction(rows, Promote), OfAction(rows, Insert), Plan(rows, uuid);
    forall i | 0 <= i < |plan| ensures plan[i].pair in Targets(rows) {
      var r := if i < |p| then p[i] else n[i - |p|];
      assert if i < |p| then r in p else r in n;
    }
    forall r | r in rows && Classify(r) != Skip ensures RowPair(r) in Pairs(plan) {
      if r in p {
        var i :| 0 <= i < |p| && p[i] == r;
        assert plan[i] in plan;
      } else {
        var i :| 0 <= i < |n| && n[i] == r;
        assert plan[|p| + i] in plan;
      }
    }
  }

  lemma PlanIsEnabled(bands: seq<Band>, members: Members, uuid: nat -> string)
    requires DistinctBands(bands) && FreshIds(uuid, members)
    ensures forall s :: s in Plan(DriftQuery(bands, members), uuid) ==> Enabled(members, s)
  {
    var rows := DriftQuery(bands, members);
    OfActionRows(rows, Promote);
    OfActionRows(rows, Insert);
    var p, n, plan := OfAction(rows, Promote), OfAction(rows, Insert), Plan(rows, uuid);
    forall i | 0 <= i < |p| ensures Enabled(members, UpdateRow(RowPair(p[i]))) {
      assert p[i] in p;
      PlannedRow(bands, members, p[i]);
    }
    forall i | 0 <= i < |n| ensures Enabled(members, InsertRow(uuid(i), RowPair(n[i]))) {
      assert n[i] in n;
      PlannedRow(bands, members, n[i]);
    }
  }

  // --- Main results about the repair ---------------------------------------

  /** The table the committed plan leaves behind. */
  function Backfilled(bands: seq<Band>, members: Members, uuid: nat -> string, indexed: bool): Option<Members> {
    ExecuteAll(members, Plan(DriftQuery(bands, members), uuid), indexed)
  }

  /** No planned statement fails, indexed or not, and the plan repairs its targets and nothing else. */
  lemma BackfillRepairs(bands: seq<Band>, members: Members, uuid: nat -> string, indexed: bool)
    requires DistinctBands(bands) && FreshIds(uuid, members)
    ensures Backfilled(bands, members, uuid, indexed).Some?
    ensures Repaired(members, Targets(DriftQuery(bands, members)), Backfilled(bands, members, uuid, indexed).value)
  {
    var rows := DriftQuery(bands, members);
    DriftQueryRows(bands, members);
    PlanIsIndependent(rows, uuid, members);
    PlanIsEnabled(bands, members, uuid);
    PlanPairs(rows, uuid);
    ExecuteAllRepairs(members, Plan(DriftQuery(bands, members), uuid), indexed);
  }

  /** The row id is the table's primary key. */
  ghost predicate RowIdsDiffer(members: Members) {
    forall k, l :: k in members && l in members && members[k].id == members[l].id ==> k == l
  }

  lemma {:induction false} ExecuteAllKeepsRowIds(members: Members, statements: seq<Statement>, indexed: bool)
    requires Independent(statements) && RowIdsDiffer(members)
    requires forall s :: s in statements ==> Enabled(members, s)
    ensures ExecuteAll(members, statements, indexed).Some?
    ensures RowIdsDiffer(ExecuteAll(members, statements, indexed).value)
    decreases |statements|
  {
    if statements == [] {
    } else {
      var s := statements[0];
      RestStaysEnabled(members, statements, indexed);
      var m := Execute(members, s, indexed).value;
      assert Enabled(members, s);
      forall k | k in members && s.InsertRow? ensures members[k].id != s.id {
        assert !RowIdTaken(members, s.id);
      }
      assert RowIdsDiffer(m);
      ExecuteAllKeepsRowIds(m, statements[1..], indexed);
    }
  }

  /** The backfill gives no two rows one id. */
  lemma BackfillKeepsRowIds(bands: seq<Band>, members: Members, uuid: nat -> string, indexed: bool)
    requires DistinctBands(bands) && FreshIds(uuid, members) && RowIdsDiffer(members)
    ensures Backfilled(bands, members, uuid, indexed).Some?
    ensures RowIdsDiffer(Backfilled(bands, members, uuid, indexed).value)
  {
    var rows := DriftQuery(bands, members);
    DriftQueryRows(bands, members);
    PlanIsIndependent(rows, uuid, members);
    PlanIsEnabled(bands, members, uuid);
    ExecuteAllKeepsRowIds(members, Plan(rows, uuid), indexed);
  }

  /** Every promoted or inserted band ends with its recorded owner as its one owner row, active. */
  lemma BackfilledBandsHaveOneOwner(bands: seq<Band>, members: Members, uuid: nat -> string, indexed: bool, b: Band)
    requires DistinctBands(bands) && FreshIds(uuid, members)
    requires b in bands && Pair(b) in Targets(DriftQuery(bands, members))
    ensures var after := Backfilled(bands, members, uuid, indexed);
      after.Some? && IsActiveOwner(after.value, Pair(b)) && OtherOwners(after.value, Pair(b)) == {}
  {
    BackfillRepairs(bands, members, uuid, indexed);
    TargetsOfQuery(bands, members);
    RepairedIsSoleOwner(members, Targets(DriftQuery(bands, members)),
                        Backfilled(bands, members, uuid, indexed).value, Pair(b));
  }

  /** One band's line in the query after the repair: gone if it was a target, else as before. */
  lemma DriftAfterRepair(bands: seq<Band>, members: Members, after: Members, b: Band)
    requires DistinctBands(bands) && b in bands
    requires Repaired(members, Targets(DriftQuery(bands, members)), after)
    ensures Drifts(after, b) <==> Drifts(members, b) && Classify(ToDriftRow(members, b)) == Skip
    ensures DriftLine(b, after) == OfAction(DriftLine(b, members), Skip)
  {
    var targets := Targets(DriftQuery(bands, members));
    TargetsOfQuery(bands, members);
    if Pair(b) !in targets {
      UntouchedBand(members, targets, after, Pair(b));
      assert Drifts(members, b) ==> Classify(ToDriftRow(members, b)) == Skip by {
        DriftQueryRows(bands, members);
        assert Drifts(members, b) ==> ToDriftRow(members, b) in DriftQuery(bands, members);
        assert RowPair(ToDriftRow(members, b)) == Pair(b);
      }
    } else {
      assert OtherOwners(members, Pair(b)) == {};
    }
  }

  lemma {:induction false} DriftAfterRepairAll(bands: seq<Band>, part: seq<Band>, members: Members, after: Members)
    requires DistinctBands(bands) && forall b :: b in part ==> b in bands
    requires Repaired(members, Targets(DriftQuery(bands, members)), after)
    ensures DriftQuery(part, after) == OfAction(DriftQuery(part, members), Skip)
  {
    if part == [] {
    } else {
      DriftAfterRepair(bands, members, after, part[0]);
      DriftAfterRepairAll(bands, part[1..], members, after);
      OfActionConcat(DriftLine(part[0], members), DriftQuery(part[1..], members), Skip);
    }
  }

  /** After the repair the query returns the skipped rows, unchanged and in order; a second run plans nothing. */
  lemma BackfillConverges(bands: seq<Band>, members: Members, uuid: nat -> string, indexed: bool, uuid': nat -> string)
    requires DistinctBands(bands) && FreshIds(uuid, members)
    ensures var after := Backfilled(bands, members, uuid, indexed);
      && after.Some?
      && DriftQuery(bands, after.value) == OfAction(DriftQuery(bands, members), Skip)
      && Plan(DriftQuery(bands, after.value), uuid') == []
  {
    BackfillRepairs(bands, members, uuid, indexed);
    var after := Backfilled(bands, members, uuid, indexed).value;
    DriftAfterRepairAll(bands, bands, members, after);
    var rows := DriftQuery(bands, members);
    OfActionDisjoint(rows, Skip, Promote);
    OfActionDisjoint(rows, Skip, Insert);
  }

  /**
   * A live band is listed exactly when its recorded owner is no active owner, whoever else claims it;
   * where somebody does, its line is skipped, never repaired.
   */
  lemma LiveBandListedIff(bands: seq<Band>, members: Members, b: Band)
    requires DistinctBands(bands) && b in bands && !b.deleted
    ensures (exists r :: r in DriftQuery(bands, members) && r.bandId == b.id) <==> !IsActiveOwner(members, Pair(b))
    ensures OtherOwners(members, Pair(b)) != {} ==>
      forall r :: r in DriftQuery(bands, members) && r.bandId == b.id ==> Classify(r) == Skip && r.otherOwnerRows > 0
  {
    DriftQueryRows(bands, members);
    if !IsActiveOwner(members, Pair(b)) {
      assert ToDriftRow(members, b) in DriftQuery(bands, members);
    }
    forall r | r in DriftQuery(bands, members) && r.bandId == b.id ensures r == ToDriftRow(members, b) {
      var x :| x in bands && Drifts(members, x) && r == ToDriftRow(members, x);
      var i :| 0 <= i < |bands| && bands[i] == x;
      var j :| 0 <= j < |bands| && bands[j] == b;
    }
  }

  predicate HasTwoOwners(members: Members, band: string) {
    exists k, l :: k in members && l in members && k != l && k.0 == band && l.0 == band
      && IsOwner(members, k) && IsOwner(members, l)
  }

  /** Two active owner rows, one of them the recorded owner's: the query does not list the band. */
  lemma ContestedBandCanPassUnlisted()
    ensures var b := Band("b", "slug", "u", false);
      var members := map[("b", "u") := Member("1", "owner", None, "active"),
                         ("b", "v") := Member("2", "owner", None, "active")];
      DriftQuery([b], members) == [] && HasTwoOwners(members, "b")
  {
    var members := map[("b", "u") := Member("1", "owner", None, "active"),
                       ("b", "v") := Member("2", "owner", None, "active")];
    assert ("b", "u") in members && ("b", "v") in members && ("b", "u").1 != ("b", "v").1 by {
      assert "u"[0] != "v"[0];
    }
    assert IsOwner(members, ("b", "u")) && IsOwner(members, ("b", "v"));
  }

  // --- The post-commit verification ----------------------------------------

  function OwnerRows(members: Members, band: string): set<Key> {
    set k | k in members.Keys && k.0 == band && members[k].role == "owner"
  }

  /** `GROUP BY band_id HAVING count(*) != 1` over the owner rows. */
  function DuplicateOwners(members: Members): set<string> {
    set k | k in members.Keys && members[k].role == "owner" && |OwnerRows(members, k.0)| != 1 :: k.0
  }

  lemma SingletonIff<T>(s: set<T>, x: T)
    requires x in s
    ensures |s| == 1 <==> s == {x}
  {
    assert s == {x} + (s - {x}) && |s| == 1 + |s - {x}|;
  }

  lemma DuplicateOwnersAreTwo(members: Members, band: string)
    ensures band in DuplicateOwners(members) <==> HasTwoOwners(members, band)
  {
    var rows := OwnerRows(members, band);
    if band in DuplicateOwners(members) {
      var k :| k in members && members[k].role == "owner" && |OwnerRows(members, k.0)| != 1 && k.0 == band;
      SingletonIff(rows, k);
      var l :| l in rows && l != k;
      assert IsOwner(members, k) && IsOwner(members, l);
    }
    if HasTwoOwners(members, band) {
      var k, l :| k in members && l in members && k != l && k.0 == band && l.0 == band
        && IsOwner(members, k) && IsOwner(members, l);
      assert k in rows && l in rows;
      SingletonIff(rows, k);
    }
  }

  /** A repair that never targets a contested band neither makes nor removes a duplicate owner. */
  lemma RepairKeepsDuplicates(before: Members, targets: set<Key>, after: Members, band: string)
    requires Repaired(before, targets, after)
    requires forall t :: t in targets ==> OtherOwners(before, t) == {}
    requires forall t, u :: t in targets && u in targets && t.0 == u.0 ==> t == u
    ensures HasTwoOwners(after, band) <==> HasTwoOwners(before, band)
  {
    if t :| t in targets && t.0 == band {
      RepairedIsSoleOwner(before, targets, after, t);
      forall m: Members, k | m in {before, after} && IsOwner(m, k) && k.0 == band ensures k == t {
        assert k == t || k in OtherOwners(m, t);
      }
    } else {
      UntouchedBand(before, targets, after, (band, ""));
    }
  }

  /** After the repair the duplicate check is clean iff no band started with two owner rows. */
  lemma VerificationMeaning(bands: seq<Band>, before: Members, after: Members)
    requires DistinctBands(bands)
    requires Repaired(before, Targets(DriftQuery(bands, before)), after)
    ensures DuplicateOwners(after) == {} <==> forall band :: !HasTwoOwners(before, band)
    ensures DuplicateOwners(after) == DuplicateOwners(before)
  {
    var targets := Targets(DriftQuery(bands, before));
    TargetsOfQuery(bands, before);
    forall band ensures band in DuplicateOwners(after) <==> HasTwoOwners(before, band) {
      RepairKeepsDuplicates(before, targets, after, band);
      DuplicateOwnersAreTwo(after, band);
    }
    forall band ensures band in DuplicateOwners(after) <==> band in DuplicateOwners(before) {
      DuplicateOwnersAreTwo(before, band);
    }
  }

  datatype Outcome =
    | NothingToRepair
    | NothingToRun
    | DryRun(statements: nat)
    | Verified(remaining: nat, dupes: nat, converged: bool)
    | Failed

  function ExitCode(o: Outcome): nat {
    match o
    case NothingToRepair => 0
    case NothingToRun => 1
    case DryRun(_) => 0
    case Verified(_, _, converged) => if converged then 0 else 1
    case Failed => 1
  }

  /** One statement is planned for each target. */
  lemma PlanTargets(rows: seq<DriftRow>, bands: seq<Band>, members: Members, uuid: nat -> string)
    requires DistinctBands(bands) && FreshIds(uuid, members) && rows == DriftQuery(bands, members)
    ensures |Plan(rows, uuid)| == |Targets(rows)|
  {
    DriftQueryRows(bands, members);
    PlanIsIndependent(rows, uuid, members);
    PlanPairs(rows, uuid);
    PairsOfIndependent(Plan(rows, uuid));
  }

  /** The loop that sorts the query's rows into the three lists. */
  method Partition(rows: seq<DriftRow>) returns (promote: seq<DriftRow>, insert: seq<DriftRow>, skip: seq<DriftRow>)
    ensures promote == OfAction(rows, Promote) && insert == OfAction(rows, Insert) && skip == OfAction(rows, Skip)
  {
    promote, insert, skip := [], [], [];
    for i := 0 to |rows|
      invariant promote == OfAction(rows[..i], Promote)
      invariant insert == OfAction(rows[..i], Insert)
      invariant skip == OfAction(rows[..i], Skip)
    {
      var r := rows[i];
      assert rows[..i + 1][..i] == rows[..i];
      if !IsUuidShaped(r.bandId) || !IsUuidShaped(r.ownerId) {
        skip := skip + [r];
      } else if r.otherOwnerRows > 0 {
        skip := skip + [r];
      } else if r.memberRole == None {
        insert := insert + [r];
      } else {
        promote := promote + [r];
      }
    }
    assert rows[..|rows|] == rows;
  }

  class Database {
    var bands: seq<Band>
    var members: Members
    const indexed: bool

    constructor (bands: seq<Band>, members: Members, indexed: bool)
      ensures this.bands == bands && this.members == members && this.indexed == indexed
    {
      this.bands, this.members, this.indexed := bands, members, indexed;
    }

    /** The script's `main`, with the query results and statements acting on this database. */
    method Backfill(commit: bool, uuid: nat -> string) returns (outcome: Outcome)
      requires DistinctBands(bands) && FreshIds(uuid, members)
      modifies this`members
      ensures outcome == NothingToRepair <==> DriftQuery(bands, old(members)) == []
      ensures outcome == NothingToRun <==>
        DriftQuery(bands, old(members)) != [] && Plan(DriftQuery(bands, old(members)), uuid) == []
      ensures outcome != Failed
      ensures outcome.Verified? ==> commit && Repaired(old(members), Targets(DriftQuery(bands, old(members))), members)
      ensures outcome.Verified? ==> outcome.remaining == |OfAction(DriftQuery(bands, old(members)), Skip)|
      ensures outcome.Verified? ==> (outcome.converged <==> forall band :: !HasTwoOwners(old(members), band))
      ensures outcome.Verified? ==> outcome.dupes == |DuplicateOwners(old(members))|
      ensures outcome.DryRun? ==> outcome.statements == |Targets(DriftQuery(bands, old(members)))| > 0
      ensures !outcome.Verified? ==> members == old(members)
      ensures commit ==> !outcome.DryRun?
      ensures !commit ==> (ExitCode(outcome) == 0 <==> outcome != NothingToRun)
      ensures commit ==> (ExitCode(outcome) == 0 <==>
        DriftQuery(bands, old(members)) == []
        || (Plan(DriftQuery(bands, old(members)), uuid) != [] && forall band :: !HasTwoOwners(old(members), band)))
    {
      var rows := DriftQuery(bands, members);
      if |rows| == 0 {
        return NothingToRepair;
      }
      var promote, insert, skip := Partition(rows);
      var statements := Updates(promote) + Inserts(insert, uuid);
      if |statements| == 0 {
        return NothingToRun;
      }
      if !commit {
        PlanTargets(rows, bands, members, uuid);
        return DryRun(|statements|);
      }
      BackfillRepairs(bands, members, uuid, indexed);
      var result := ExecuteAll(members, statements, indexed);
      if result == None {
        return Failed;
      }
      ghost var before := members;
      members := result.value;
      var remaining := DriftQuery(bands, members);
      var dupes := DuplicateOwners(members);
      outcome := Verified(|remaining|, |dupes|, !(|remaining| > |skip| || |dupes| > 0));
      BackfillConverges(bands, before, uuid, indexed, uuid);
      VerificationMeaning(bands, before, members);
    }
  }
}
