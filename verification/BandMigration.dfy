/**
 * The migrator's band phase: mapping bands, inserting members, and the
 * row-at-a-time owner reconcile (`migrateBands` in scripts/migrate-from-postgres.ts).
 */
module BandMigration {
  import opened Wrappers
  import opened IdMap
  import opened BandOwners

  datatype LegacyBand = LegacyBand(id: string, ownerId: Option<string>)

  /** `role` is empty where the legacy column is null. */
  datatype LegacyMember = LegacyMember(id: string, bandId: Option<string>, userId: Option<string>,
                                       role: string, position: Option<string>)

  datatype World = World(ids: Ids, members: Members)

  const BANDS := "band_profiles"
  const USERS := "users"
  const MEMBERS := "band_members"

  // --- Steps ---------------------------------------------------------------

  /** The new (band, user) pair of a band's recorded owner. */
  function OwnerPair(ids: Ids, b: LegacyBand): Key {
    (Lookup(ids, BANDS, Some(b.id)).GetOr(""), Lookup(ids, USERS, b.ownerId).GetOr(""))
  }

  /** A unique constraint stands against inserting this row. */
  predicate Blocked(members: Members, id: string, k: Key, role: string, indexed: bool) {
    k in members || RowIdTaken(members, id) || (indexed && role == "owner" && OtherOwners(members, k) != {})
  }

  function InsertOrIgnore(members: Members, k: Key, row: Member, indexed: bool): Members {
    if Blocked(members, row.id, k, row.role, indexed) then members else members[k := row]
  }

  function MapBands(uuid: nat -> string, ids: Ids, bands: seq<LegacyBand>): Ids {
    if bands == [] then ids
    else Mapped(uuid, MapBands(uuid, ids, bands[..|bands| - 1]), BANDS, bands[|bands| - 1].id)
  }

  function InsertMember(uuid: nat -> string, w: World, m: LegacyMember, indexed: bool): World {
    if !Known(w.ids, BANDS, m.bandId) || !Known(w.ids, USERS, m.userId) then w else
    var ids := Mapped(uuid, w.ids, MEMBERS, m.id);
    var k := (Lookup(w.ids, BANDS, m.bandId).value, Lookup(w.ids, USERS, m.userId).value);
    var row := Member(Lookup(ids, MEMBERS, Some(m.id)).GetOr(""), if m.role == "" then "member" else m.role,
                      m.position, "active");
    World(ids, InsertOrIgnore(w.members, k, row, indexed))
  }

  function InsertMembers(uuid: nat -> string, w: World, rows: seq<LegacyMember>, indexed: bool): World {
    if rows == [] then w
    else InsertMember(uuid, InsertMembers(uuid, w, rows[..|rows| - 1], indexed), rows[|rows| - 1], indexed)
  }

  datatype Reconciled = Reconciled(world: World, ownersFixed: nat)

  function ReconcileBand(uuid: nat -> string, r: Reconciled, b: LegacyBand, indexed: bool): Reconciled {
    var ids := Mapped(uuid, r.world.ids, BANDS, b.id);
    var members := r.world.members;
    var k := OwnerPair(ids, b);
    if !Known(ids, USERS, b.ownerId) || OtherOwners(members, k) != {} then
      Reconciled(World(ids, members), r.ownersFixed)
    else if k !in members then
      var row := Member(uuid(ids.drawn), "owner", None, "active");
      Reconciled(World(ids.(drawn := ids.drawn + 1), InsertOrIgnore(members, k, row, indexed)), r.ownersFixed + 1)
    else if !IsActiveOwner(members, k) then
      Reconciled(World(ids, members[k := members[k].(role := "owner", status := "active")]), r.ownersFixed + 1)
    else
      Reconciled(World(ids, members), r.ownersFixed)
  }

  function Reconcile(uuid: nat -> string, w: World, bands: seq<LegacyBand>, indexed: bool): Reconciled {
    if bands == [] then Reconciled(w, 0)
    else ReconcileBand(uuid, Reconcile(uuid, w, bands[..|bands| - 1], indexed), bands[|bands| - 1], indexed)
  }

  /** The whole phase on one legacy snapshot. */
  function Phase(uuid: nat -> string, w: World, bands: seq<LegacyBand>, rows: seq<LegacyMember>,
                 indexed: bool): Reconciled {
    Reconcile(uuid, InsertMembers(uuid, World(MapBands(uuid, w.ids, bands), w.members), rows, indexed), bands, indexed)
  }

  // --- Fresh ids -----------------------------------------------------------

  ghost function UsedIds(w: World): iset<string> {
    StoredIds(w.ids) + iset k | k in w.members :: w.members[k].id
  }

  /** The UUIDs still to be drawn are new to the id map and to the table. */
  ghost predicate FreshWorld(uuid: nat -> string, w: World) {
    FreshAhead(uuid, w.ids.drawn, UsedIds(w))
  }

  lemma MappedStaysFresh(uuid: nat -> string, w: World, table: string, key: string)
    requires FreshWorld(uuid, w)
    ensures FreshFor(uuid, w.ids)
    ensures FreshWorld(uuid, World(Mapped(uuid, w.ids, table, key), w.members))
  {
    var ids := Mapped(uuid, w.ids, table, key);
    MapIdIsStable(uuid, w.ids, table, key);
    forall id | id in StoredIds(ids)
      ensures id in StoredIds(w.ids) || (id == uuid(w.ids.drawn) && ids.drawn == w.ids.drawn + 1)
    {
      var t, k :| t in ids.stored && k in ids.stored[t] && ids.stored[t][k] == id;
      assert (t, k) == (table, key) || id == w.ids.stored[t][k];
    }
  }

  // --- Monotonicity: what a later world keeps ------------------------------

  /** Rows keep their ids, owners stay owners, active owners stay active. */
  ghost predicate Grows(m: Members, later: Members) {
    forall k :: k in m ==>
      && k in later && later[k].id == m[k].id
      && (m[k].role == "owner" ==> later[k].role == "owner")
      && (IsActiveOwner(m, k) ==> IsActiveOwner(later, k))
  }

  ghost predicate Later(w: World, w': World) {
    && Extends(w.ids, w'.ids)
    && (forall k :: Lookup(w.ids, BANDS, k) == Lookup(w'.ids, BANDS, k))
    && (forall k :: Lookup(w.ids, USERS, k) == Lookup(w'.ids, USERS, k))
    && Grows(w.members, w'.members)
  }

  lemma GrowsKeepsRivals(m: Members, later: Members, k: Key)
    requires Grows(m, later)
    ensures OtherOwners(m, k) <= OtherOwners(later, k)
  {
  }

  lemma GrowsKeepsBlocked(m: Members, later: Members, id: string, k: Key, role: string, indexed: bool)
    requires Grows(m, later) && Blocked(m, id, k, role, indexed)
    ensures Blocked(later, id, k, role, indexed)
  {
    GrowsKeepsRivals(m, later, k);
    if RowIdTaken(m, id) {
      var x :| x in m && m[x].id == id;
      assert x in later && later[x].id == id;
    }
  }

  // --- Settled rows: processing them again does nothing --------------------

  ghost predicate MemberSettled(w: World, m: LegacyMember, indexed: bool) {
    Known(w.ids, BANDS, m.bandId) && Known(w.ids, USERS, m.userId) ==>
      && Known(w.ids, MEMBERS, Some(m.id))
      && Blocked(w.members, IdOf(w.ids, MEMBERS, m.id),
                 (Lookup(w.ids, BANDS, m.bandId).value, Lookup(w.ids, USERS, m.userId).value),
                 if m.role == "" then "member" else m.role, indexed)
  }

  ghost predicate BandSettled(w: World, b: LegacyBand) {
    && Known(w.ids, BANDS, Some(b.id))
    && (Known(w.ids, USERS, b.ownerId) ==> !NeedsRepair(w.members, OwnerPair(w.ids, b)))
  }

  lemma SettledStays(w: World, w': World, indexed: bool)
    requires Later(w, w')
    ensures forall m :: MemberSettled(w, m, indexed) ==> MemberSettled(w', m, indexed)
    ensures forall b :: BandSettled(w, b) ==> BandSettled(w', b)
  {
    forall m | MemberSettled(w, m, indexed) && Known(w.ids, BANDS, m.bandId) && Known(w.ids, USERS, m.userId)
      ensures MemberSettled(w', m, indexed)
    {
      GrowsKeepsBlocked(w.members, w'.members, IdOf(w.ids, MEMBERS, m.id),
                        (Lookup(w.ids, BANDS, m.bandId).value, Lookup(w.ids, USERS, m.userId).value),
                        if m.role == "" then "member" else m.role, indexed);
    }
    forall b | BandSettled(w, b) ensures BandSettled(w', b) {
      GrowsKeepsRivals(w.members, w'.members, OwnerPair(w.ids, b));
    }
  }

  lemma {:induction false} MapBandsMaps(uuid: nat -> string, w: World, bands: seq<LegacyBand>)
    requires FreshWorld(uuid, w)
    ensures FreshWorld(uuid, World(MapBands(uuid, w.ids, bands), w.members))
    ensures forall b :: b in bands ==> Known(MapBands(uuid, w.ids, bands), BANDS, Some(b.id))
  {
    if bands == [] {
    } else {
      var init, last := bands[..|bands| - 1], bands[|bands| - 1];
      MapBandsMaps(uuid, w, init);
      var w1 := World(MapBands(uuid, w.ids, init), w.members);
      MappedStaysFresh(uuid, w1, BANDS, last.id);
      MapIdIsStable(uuid, w1.ids, BANDS, last.id);
    }
  }

  lemma InsertMemberStaysFresh(uuid: nat -> string, w: World, m: LegacyMember, indexed: bool)
    requires FreshWorld(uuid, w)
    ensures FreshWorld(uuid, InsertMember(uuid, w, m, indexed))
  {
    MappedStaysFresh(uuid, w, MEMBERS, m.id);
    MapIdIsStable(uuid, w.ids, MEMBERS, m.id);
    var w' := InsertMember(uuid, w, m, indexed);
    if Known(w.ids, BANDS, m.bandId) && Known(w.ids, USERS, m.userId) {
      var id := IdOf(w'.ids, MEMBERS, m.id);
      assert id in StoredIds(w'.ids) by { assert w'.ids.stored[MEMBERS][m.id] == id; }
      assert UsedIds(w') <= UsedIds(World(w'.ids, w.members)) + iset{id};
    }
  }

  lemma InsertMemberSettles(uuid: nat -> string, w: World, m: LegacyMember, indexed: bool)
    requires FreshWorld(uuid, w)
    ensures Later(w, InsertMember(uuid, w, m, indexed))
    ensures MemberSettled(InsertMember(uuid, w, m, indexed), m, indexed)
  {
    MappedStaysFresh(uuid, w, MEMBERS, m.id);
    MapIdIsStable(uuid, w.ids, MEMBERS, m.id);
  }

  lemma {:induction false} InsertMembersSettle(uuid: nat -> string, w: World, rows: seq<LegacyMember>, indexed: bool)
    requires FreshWorld(uuid, w)
    ensures var w' := InsertMembers(uuid, w, rows, indexed);
      FreshWorld(uuid, w') && Later(w, w') && forall m :: m in rows ==> MemberSettled(w', m, indexed)
  {
    if rows == [] {
    } else {
      var init, last := rows[..|rows| - 1], rows[|rows| - 1];
      InsertMembersSettle(uuid, w, init, indexed);
      var w1 := InsertMembers(uuid, w, init, indexed);
      InsertMemberStaysFresh(uuid, w1, last, indexed);
      InsertMemberSettles(uuid, w1, last, indexed);
      SettledStays(w1, InsertMember(uuid, w1, last, indexed), indexed);
    }
  }

  lemma RepairedGrows(before: Members, targets: set<Key>, after: Members)
    requires Repaired(before, targets, after)
    ensures Grows(before, after)
  {
  }

  lemma NextDrawIsNew(uuid: nat -> string, w: World)
    requires FreshWorld(uuid, w)
    ensures !RowIdTaken(w.members, uuid(w.ids.drawn))
  {
    forall x | x in w.members ensures w.members[x].id != uuid(w.ids.drawn) {
      assert w.members[x].id in UsedIds(w);
    }
  }

  /** The loop's step repairs the band's owner pair exactly when it needs it, and counts it then. */
  lemma ReconcileBandRepairs(uuid: nat -> string, r: Reconciled, b: LegacyBand, indexed: bool)
    requires FreshWorld(uuid, r.world) && Known(r.world.ids, BANDS, Some(b.id))
    ensures var r' := ReconcileBand(uuid, r, b, indexed);
      var k := OwnerPair(r.world.ids, b);
      var hit := Known(r.world.ids, USERS, b.ownerId) && NeedsRepair(r.world.members, k);
      && Repaired(r.world.members, if hit then {k} else {}, r'.world.members)
      && r'.ownersFixed == r.ownersFixed + (if hit then 1 else 0)
      && r'.world.ids.stored == r.world.ids.stored
  {
    NextDrawIsNew(uuid, r.world);
  }

  lemma ReconcileBandStaysFresh(uuid: nat -> string, r: Reconciled, b: LegacyBand, indexed: bool)
    requires FreshWorld(uuid, r.world) && Known(r.world.ids, BANDS, Some(b.id))
    ensures FreshWorld(uuid, ReconcileBand(uuid, r, b, indexed).world)
  {
    var w, w' := r.world, ReconcileBand(uuid, r, b, indexed).world;
    assert StoredIds(w'.ids) == StoredIds(w.ids);
    assert UsedIds(w') <= UsedIds(w) + if w'.ids.drawn > w.ids.drawn then iset{uuid(w.ids.drawn)} else iset{};
  }

  lemma ReconcileBandSettles(uuid: nat -> string, r: Reconciled, b: LegacyBand, indexed: bool)
    requires FreshWorld(uuid, r.world) && Known(r.world.ids, BANDS, Some(b.id))
    ensures var w' := ReconcileBand(uuid, r, b, indexed).world;
      FreshWorld(uuid, w') && Later(r.world, w') && BandSettled(w', b)
  {
    var w, w' := r.world, ReconcileBand(uuid, r, b, indexed).world;
    var k := OwnerPair(w.ids, b);
    var targets := if Known(w.ids, USERS, b.ownerId) && NeedsRepair(w.members, k) then {k} else {};
    ReconcileBandStaysFresh(uuid, r, b, indexed);
    ReconcileBandRepairs(uuid, r, b, indexed);
    RepairedGrows(w.members, targets, w'.members);
    assert forall t, key :: Lookup(w'.ids, t, key) == Lookup(w.ids, t, key);
    if targets == {} {
      assert w'.members == w.members;
    }
  }

  lemma {:induction false} ReconcileSettles(uuid: nat -> string, w: World, bands: seq<LegacyBand>, indexed: bool)
    requires FreshWorld(uuid, w) && forall b :: b in bands ==> Known(w.ids, BANDS, Some(b.id))
    ensures var w' := Reconcile(uuid, w, bands, indexed).world;
      && FreshWorld(uuid, w') && Later(w, w') && w'.ids.stored == w.ids.stored
      && (forall b :: b in bands ==> BandSettled(w', b))
  {
    if bands == [] {
    } else {
      var init, last := bands[..|bands| - 1], bands[|bands| - 1];
      ReconcileSettles(uuid, w, init, indexed);
      var r1 := Reconcile(uuid, w, init, indexed);
      assert last in bands;
      assert Known(r1.world.ids, BANDS, Some(last.id));
      ReconcileBandSettles(uuid, r1, last, indexed);
      SettledStays(r1.world, ReconcileBand(uuid, r1, last, indexed).world, indexed);
    }
  }

  lemma {:induction false} SettledMembersAreSkipped(uuid: nat -> string, w: World, rows: seq<LegacyMember>,
                                                    indexed: bool)
    requires forall m :: m in rows ==> MemberSettled(w, m, indexed)
    ensures InsertMembers(uuid, w, rows, indexed) == w
  {
    if rows == [] {
    } else {
      SettledMembersAreSkipped(uuid, w, rows[..|rows| - 1], indexed);
      assert rows[|rows| - 1] in rows;
    }
  }

  lemma {:induction false} SettledBandsAreSkipped(uuid: nat -> string, w: World, bands: seq<LegacyBand>, indexed: bool)
    requires forall b :: b in bands ==> BandSettled(w, b)
    ensures MapBands(uuid, w.ids, bands) == w.ids
    ensures Reconcile(uuid, w, bands, indexed) == Reconciled(w, 0)
  {
    if bands == [] {
    } else {
      SettledBandsAreSkipped(uuid, w, bands[..|bands| - 1], indexed);
      assert bands[|bands| - 1] in bands;
    }
  }

  /** Running the phase again on the same snapshot changes neither ids nor rows, and fixes no owner. */
  lemma SecondRunIsFixedPoint(uuid: nat -> string, w: World, bands: seq<LegacyBand>, rows: seq<LegacyMember>,
                              indexed: bool)
    requires FreshWorld(uuid, w)
    ensures var first := Phase(uuid, w, bands, rows, indexed);
      Phase(uuid, first.world, bands, rows, indexed) == Reconciled(first.world, 0)
  {
    MapBandsMaps(uuid, w, bands);
    var w1 := World(MapBands(uuid, w.ids, bands), w.members);
    InsertMembersSettle(uuid, w1, rows, indexed);
    var w2 := InsertMembers(uuid, w1, rows, indexed);
    ReconcileSettles(uuid, w2, bands, indexed);
    var w3 := Reconcile(uuid, w2, bands, indexed).world;
    SettledStays(w2, w3, indexed);
    SettledBandsAreSkipped(uuid, w3, bands, indexed);
    SettledMembersAreSkipped(uuid, w3, rows, indexed);
  }

  // --- What the member loop writes -----------------------------------------

  /**
   * The row is a legacy member's, on its mapped pair and under its mapped id: active, and a plain member where
   * no role was given.
   */
  ghost predicate IsLegacyRow(ids: Ids, m: LegacyMember, k: Key, row: Member) {
    && Lookup(ids, BANDS, m.bandId) == Some(k.0) && Lookup(ids, USERS, m.userId) == Some(k.1)
    && Known(ids, MEMBERS, Some(m.id)) && row.id == IdOf(ids, MEMBERS, m.id)
    && row.role == (if m.role == "" then "member" else m.role)
    && row.position == m.position && row.status == "active"
  }

  ghost predicate HasLegacyRow(ids: Ids, rows: seq<LegacyMember>, k: Key, row: Member) {
    exists m :: m in rows && IsLegacyRow(ids, m, k, row)
  }

  lemma InsertMemberAddsLegacyRow(uuid: nat -> string, w: World, m: LegacyMember, indexed: bool)
    requires FreshWorld(uuid, w)
    ensures var after := InsertMember(uuid, w, m, indexed);
      && (forall k :: k in w.members ==> k in after.members && after.members[k] == w.members[k])
      && (forall k :: k in after.members && k !in w.members ==> IsLegacyRow(after.ids, m, k, after.members[k]))
  {
    InsertMemberSettles(uuid, w, m, indexed);
  }

  lemma LegacyRowStays(w: World, w': World, rows: seq<LegacyMember>, more: seq<LegacyMember>)
    requires Later(w, w')
    ensures forall k, row :: HasLegacyRow(w.ids, rows, k, row) ==> HasLegacyRow(w'.ids, rows + more, k, row)
  {
    forall k, row | HasLegacyRow(w.ids, rows, k, row) ensures HasLegacyRow(w'.ids, rows + more, k, row) {
      var m :| m in rows && IsLegacyRow(w.ids, m, k, row);
      assert m in rows + more && IsLegacyRow(w'.ids, m, k, row);
    }
  }

  /** Inserting overwrites no row, and every new row is some legacy member's. */
  lemma {:induction false} InsertedRowsAreLegacy(uuid: nat -> string, w: World, rows: seq<LegacyMember>, indexed: bool)
    requires FreshWorld(uuid, w)
    ensures var after := InsertMembers(uuid, w, rows, indexed);
      && (forall k :: k in w.members ==> k in after.members && after.members[k] == w.members[k])
      && (forall k :: k in after.members && k !in w.members ==> HasLegacyRow(after.ids, rows, k, after.members[k]))
  {
    if rows == [] {
    } else {
      var init, last := rows[..|rows| - 1], rows[|rows| - 1];
      assert rows == init + [last];
      InsertedRowsAreLegacy(uuid, w, init, indexed);
      InsertMembersSettle(uuid, w, init, indexed);
      var w1, w2 := InsertMembers(uuid, w, init, indexed), InsertMembers(uuid, w, rows, indexed);
      InsertMemberAddsLegacyRow(uuid, w1, last, indexed);
      InsertMemberSettles(uuid, w1, last, indexed);
      LegacyRowStays(w1, w2, init, [last]);
      forall k | k in w2.members && k !in w.members ensures HasLegacyRow(w2.ids, rows, k, w2.members[k]) {
        if k !in w1.members {
          assert last in rows && IsLegacyRow(w2.ids, last, k, w2.members[k]);
        }
      }
    }
  }

  /**
   * A legacy member of a known band and user is in the table, unless its mapped id is on another row or,
   * once the index exists, another user's owner row keeps an owner out.
   */
  ghost predicate IsAccountedFor(w: World, m: LegacyMember, indexed: bool) {
    forall band, user ::
      Lookup(w.ids, BANDS, m.bandId) == Some(band) && band != ""
      && Lookup(w.ids, USERS, m.userId) == Some(user) && user != "" ==>
        || (band, user) in w.members
        || (exists k :: k in w.members && Lookup(w.ids, MEMBERS, Some(m.id)) == Some(w.members[k].id))
        || (indexed && m.role == "owner"
            && exists k :: k in w.members && k.0 == band && k.1 != user && w.members[k].role == "owner")
  }

  lemma SettledIsAccountedFor(w: World, m: LegacyMember, indexed: bool)
    requires MemberSettled(w, m, indexed)
    ensures IsAccountedFor(w, m, indexed)
  {
    forall band, user | Lookup(w.ids, BANDS, m.bandId) == Some(band) && band != ""
      && Lookup(w.ids, USERS, m.userId) == Some(user) && user != "" && (band, user) !in w.members
      ensures (exists k :: k in w.members && Lookup(w.ids, MEMBERS, Some(m.id)) == Some(w.members[k].id))
        || (indexed && m.role == "owner"
            && exists k :: k in w.members && k.0 == band && k.1 != user && w.members[k].role == "owner")
    {
      if !RowIdTaken(w.members, IdOf(w.ids, MEMBERS, m.id)) {
        assert |"member"| != |"owner"| && m.role == "owner";
        var k :| k in OtherOwners(w.members, (band, user));
      }
    }
  }

  /** Every legacy member is accounted for once the member loop has run, and still when the phase ends. */
  lemma MembersAreAccountedFor(uuid: nat -> string, w: World, bands: seq<LegacyBand>, rows: seq<LegacyMember>,
                               m: LegacyMember, indexed: bool)
    requires FreshWorld(uuid, w) && m in rows
    ensures IsAccountedFor(InsertMembers(uuid, w, rows, indexed), m, indexed)
    ensures IsAccountedFor(Phase(uuid, w, bands, rows, indexed).world, m, indexed)
  {
    InsertMembersSettle(uuid, w, rows, indexed);
    SettledIsAccountedFor(InsertMembers(uuid, w, rows, indexed), m, indexed);
    MapBandsMaps(uuid, w, bands);
    var w1 := World(MapBands(uuid, w.ids, bands), w.members);
    InsertMembersSettle(uuid, w1, rows, indexed);
    var w2 := InsertMembers(uuid, w1, rows, indexed);
    ReconcileSettles(uuid, w2, bands, indexed);
    var w3 := Reconcile(uuid, w2, bands, indexed).world;
    SettledStays(w2, w3, indexed);
    SettledIsAccountedFor(w3, m, indexed);
  }

  lemma {:induction false} InsertMembersKeepRowIds(uuid: nat -> string, w: World, rows: seq<LegacyMember>,
                                                   indexed: bool)
    requires RowIdsDiffer(w.members)
    ensures RowIdsDiffer(InsertMembers(uuid, w, rows, indexed).members)
  {
    if rows == [] {
    } else {
      var init, last := rows[..|rows| - 1], rows[|rows| - 1];
      InsertMembersKeepRowIds(uuid, w, init, indexed);
      var w1, w2 := InsertMembers(uuid, w, init, indexed), InsertMembers(uuid, w, rows, indexed);
      if k :| k in w2.members && k !in w1.members {
        assert w2.members == w1.members[k := w2.members[k]] && !RowIdTaken(w1.members, w2.members[k].id);
      } else {
        assert w2.members == w1.members;
      }
    }
  }

  lemma {:induction false} ReconcileKeepsRowIds(uuid: nat -> string, w: World, bands: seq<LegacyBand>, indexed: bool)
    requires RowIdsDiffer(w.members)
    ensures RowIdsDiffer(Reconcile(uuid, w, bands, indexed).world.members)
  {
    if bands == [] {
    } else {
      var init, last := bands[..|bands| - 1], bands[|bands| - 1];
      ReconcileKeepsRowIds(uuid, w, init, indexed);
      var m := Reconcile(uuid, w, init, indexed).world.members;
      forall k, id | k in m && !RowIdTaken(m, id) ensures m[k].id != id {
      }
    }
  }

  /** The phase gives no two rows one id, drawn or mapped. */
  lemma PhaseKeepsRowIds(uuid: nat -> string, w: World, bands: seq<LegacyBand>, rows: seq<LegacyMember>, indexed: bool)
    requires RowIdsDiffer(w.members)
    ensures RowIdsDiffer(Phase(uuid, w, bands, rows, indexed).world.members)
  {
    var w1 := World(MapBands(uuid, w.ids, bands), w.members);
    InsertMembersKeepRowIds(uuid, w1, rows, indexed);
    ReconcileKeepsRowIds(uuid, InsertMembers(uuid, w1, rows, indexed), bands, indexed);
  }

  // --- Distinct keys keep distinct ids through the phase -------------------

  lemma {:induction false} MapBandsStaysInjective(uuid: nat -> string, w: World, bands: seq<LegacyBand>)
    requires FreshWorld(uuid, w) && Injective(w.ids)
    ensures Injective(MapBands(uuid, w.ids, bands))
  {
    if bands == [] {
    } else {
      var init, last := bands[..|bands| - 1], bands[|bands| - 1];
      MapBandsStaysInjective(uuid, w, init);
      MapBandsMaps(uuid, w, init);
      var w1 := World(MapBands(uuid, w.ids, init), w.members);
      MappedStaysFresh(uuid, w1, BANDS, last.id);
      MapIdStaysInjective(uuid, w1.ids, BANDS, last.id);
    }
  }

  lemma {:induction false} InsertMembersStaysInjective(uuid: nat -> string, w: World, rows: seq<LegacyMember>,
                                                       indexed: bool)
    requires FreshWorld(uuid, w) && Injective(w.ids)
    ensures Injective(InsertMembers(uuid, w, rows, indexed).ids)
  {
    if rows == [] {
    } else {
      var init, last := rows[..|rows| - 1], rows[|rows| - 1];
      InsertMembersStaysInjective(uuid, w, init, indexed);
      InsertMembersSettle(uuid, w, init, indexed);
      var w1 := InsertMembers(uuid, w, init, indexed);
      MappedStaysFresh(uuid, w1, MEMBERS, last.id);
      MapIdStaysInjective(uuid, w1.ids, MEMBERS, last.id);
    }
  }

  // --- The reconcile loop repairs the same pairs as the backfill -----------

  ghost predicate DistinctLegacy(bands: seq<LegacyBand>) {
    forall i, j :: 0 <= i < j < |bands| ==> bands[i].id != bands[j].id
  }

  /** The bands are mapped, to pairwise different ids. */
  ghost predicate Ready(w: World, bands: seq<LegacyBand>) {
    DistinctLegacy(bands) && Injective(w.ids) && forall b :: b in bands ==> Known(w.ids, BANDS, Some(b.id))
  }

  /** The first two loops of the phase leave every band mapped to an id of its own. */
  lemma PhaseMakesReady(uuid: nat -> string, w: World, bands: seq<LegacyBand>, rows: seq<LegacyMember>, indexed: bool)
    requires FreshWorld(uuid, w) && Injective(w.ids) && DistinctLegacy(bands)
    ensures var w' := InsertMembers(uuid, World(MapBands(uuid, w.ids, bands), w.members), rows, indexed);
      FreshWorld(uuid, w') && Ready(w', bands)
  {
    MapBandsMaps(uuid, w, bands);
    MapBandsStaysInjective(uuid, w, bands);
    var w1 := World(MapBands(uuid, w.ids, bands), w.members);
    InsertMembersSettle(uuid, w1, rows, indexed);
    InsertMembersStaysInjective(uuid, w1, rows, indexed);
  }

  /** The owner pairs the loop has to repair. */
  function ReconcileTargets(w: World, bands: seq<LegacyBand>): set<Key> {
    set b | b in bands && Known(w.ids, USERS, b.ownerId) && NeedsRepair(w.members, OwnerPair(w.ids, b))
      :: OwnerPair(w.ids, b)
  }

  lemma OwnerPairsDiffer(w: World, bands: seq<LegacyBand>, i: nat, j: nat)
    requires Ready(w, bands) && i < j < |bands|
    ensures OwnerPair(w.ids, bands[i]).0 != OwnerPair(w.ids, bands[j]).0
  {
    assert bands[i] in bands && bands[j] in bands;
    assert !ShareId(w.ids, BANDS, bands[i].id, BANDS, bands[j].id);
  }

  lemma TargetsOfInit(w: World, bands: seq<LegacyBand>)
    requires Ready(w, bands) && bands != []
    ensures Ready(w, bands[..|bands| - 1])
    ensures var last := bands[|bands| - 1];
      var k := OwnerPair(w.ids, last);
      var done := ReconcileTargets(w, bands[..|bands| - 1]);
      && (forall t :: t in done ==> t.0 != k.0)
      && ReconcileTargets(w, bands)
         == done + if Known(w.ids, USERS, last.ownerId) && NeedsRepair(w.members, k) then {k} else {}
  {
    var init, last := bands[..|bands| - 1], bands[|bands| - 1];
    assert forall b :: b in bands <==> b in init || b == last;
    forall i | 0 <= i < |init| ensures OwnerPair(w.ids, init[i]).0 != OwnerPair(w.ids, last).0 {
      OwnerPairsDiffer(w, bands, i, |bands| - 1);
    }
  }

  lemma NoTargetsNoChange(before: Members, after: Members)
    requires Repaired(before, {}, after)
    ensures after == before
  {
  }

  lemma ExtendRepair(before: Members, done: set<Key>, mid: Members, k: Key, hit: bool, after: Members)
    requires Repaired(before, done, mid) && Repaired(mid, if hit then {k} else {}, after)
    requires forall t :: t in done ==> t.0 != k.0
    ensures Repaired(before, done + if hit then {k} else {}, after)
    ensures |done + if hit then {k} else {}| == |done| + if hit then 1 else 0
  {
    if hit {
      assert k !in done;
      RepairedThen(before, done, mid, {k}, after);
    } else {
      NoTargetsNoChange(mid, after);
      assert done + {} == done;
    }
  }

  lemma CountIsExtended(uuid: nat -> string, w: World, done: set<Key>, r: Reconciled, b: LegacyBand, indexed: bool)
    requires FreshWorld(uuid, r.world) && Known(r.world.ids, BANDS, Some(b.id))
    requires r.world.ids.stored == w.ids.stored && Repaired(w.members, done, r.world.members)
    requires forall t :: t in done ==> t.0 != OwnerPair(w.ids, b).0
    ensures var hit := Known(w.ids, USERS, b.ownerId) && NeedsRepair(w.members, OwnerPair(w.ids, b));
      ReconcileBand(uuid, r, b, indexed).ownersFixed == r.ownersFixed + if hit then 1 else 0
  {
    var k := OwnerPair(w.ids, b);
    UntouchedBand(w.members, done, r.world.members, k);
    ReconcileBandRepairs(uuid, r, b, indexed);
    assert k == OwnerPair(r.world.ids, b) && Known(w.ids, USERS, b.ownerId) == Known(r.world.ids, USERS, b.ownerId);
  }

  lemma RepairOneMore(uuid: nat -> string, w: World, done: set<Key>, r: Reconciled, b: LegacyBand, indexed: bool)
    requires FreshWorld(uuid, r.world) && Known(r.world.ids, BANDS, Some(b.id))
    requires r.world.ids.stored == w.ids.stored
    requires Repaired(w.members, done, r.world.members) && r.ownersFixed == |done|
    requires forall t :: t in done ==> t.0 != OwnerPair(w.ids, b).0
    ensures var r' := ReconcileBand(uuid, r, b, indexed);
      var k := OwnerPair(w.ids, b);
      var all := done + if Known(w.ids, USERS, b.ownerId) && NeedsRepair(w.members, k) then {k} else {};
      Repaired(w.members, all, r'.world.members) && r'.ownersFixed == |all|
  {
    var k := OwnerPair(w.ids, b);
    var hit := Known(w.ids, USERS, b.ownerId) && NeedsRepair(w.members, k);
    var after := ReconcileBand(uuid, r, b, indexed).world.members;
    assert Repaired(r.world.members, if hit then {k} else {}, after) by {
      UntouchedBand(w.members, done, r.world.members, k);
      ReconcileBandRepairs(uuid, r, b, indexed);
      assert k == OwnerPair(r.world.ids, b) && Known(w.ids, USERS, b.ownerId) == Known(r.world.ids, USERS, b.ownerId);
    }
    ExtendRepair(w.members, done, r.world.members, k, hit, after);
    CountIsExtended(uuid, w, done, r, b, indexed);
  }

  /** The loop repairs exactly its targets and counts each once. */
  lemma {:induction false} ReconcileRepairs(uuid: nat -> string, w: World, bands: seq<LegacyBand>, indexed: bool)
    requires FreshWorld(uuid, w) && Ready(w, bands)
    ensures var r := Reconcile(uuid, w, bands, indexed);
      Repaired(w.members, ReconcileTargets(w, bands), r.world.members) && r.ownersFixed == |ReconcileTargets(w, bands)|
  {
    if bands == [] {
    } else {
      var init, last := bands[..|bands| - 1], bands[|bands| - 1];
      TargetsOfInit(w, bands);
      ReconcileSettles(uuid, w, init, indexed);
      ReconcileRepairs(uuid, w, init, indexed);
      var r1 := Reconcile(uuid, w, init, indexed);
      assert OwnerPair(r1.world.ids, last) == OwnerPair(w.ids, last) && last in bands;
      RepairOneMore(uuid, w, ReconcileTargets(w, init), r1, last, indexed);
    }
  }

  lemma SameTargetsSameRelation(before: Members, targets: set<Key>, a: Members, b: Members)
    requires Repaired(before, targets, a) && Repaired(before, targets, b)
    ensures SameRelation(before, a, b)
  {
  }

  lemma SameBandsSameTargets(w: World, bands: seq<LegacyBand>, shuffled: seq<LegacyBand>)
    requires forall b :: b in bands <==> b in shuffled
    ensures ReconcileTargets(w, bands) == ReconcileTargets(w, shuffled)
  {
  }

  /** The loop's outcome does not depend on the order of the bands. */
  lemma ReconcileOrderIsIrrelevant(uuid: nat -> string, w: World, bands: seq<LegacyBand>,
                                   shuffled: seq<LegacyBand>, indexed: bool)
    requires FreshWorld(uuid, w) && Ready(w, bands) && Ready(w, shuffled)
    requires forall b :: b in bands <==> b in shuffled
    ensures var r, s := Reconcile(uuid, w, bands, indexed), Reconcile(uuid, w, shuffled, indexed);
      SameRelation(w.members, r.world.members, s.world.members) && r.ownersFixed == s.ownersFixed
  {
    ReconcileRepairs(uuid, w, bands, indexed);
    ReconcileRepairs(uuid, w, shuffled, indexed);
    SameBandsSameTargets(w, bands, shuffled);
    SameTargetsSameRelation(w.members, ReconcileTargets(w, bands),
                            Reconcile(uuid, w, bands, indexed).world.members,
                            Reconcile(uuid, w, shuffled, indexed).world.members);
  }

  /** The migrator reconciles this pair: one of its bands has it as mapped band and known owner. */
  ghost predicate ReconcilesPair(w: World, legacy: seq<LegacyBand>, k: Key) {
    exists l :: l in legacy && Known(w.ids, USERS, l.ownerId) && OwnerPair(w.ids, l) == k
  }

  /** The backfill may repair this pair: a live band of the table with well-formed ids has it. */
  ghost predicate BackfillsPair(bands: seq<Band>, k: Key) {
    exists b :: b in bands && !b.deleted && IsUuidShaped(b.id) && IsUuidShaped(b.ownerId) && Pair(b) == k
  }

  lemma TargetsAreTheNeedyPairs(w: World, legacy: seq<LegacyBand>, bands: seq<Band>)
    ensures forall k :: k in ReconcileTargets(w, legacy) <==> ReconcilesPair(w, legacy, k) && NeedsRepair(w.members, k)
    ensures forall k ::
      k in Targets(DriftQuery(bands, w.members)) <==> BackfillsPair(bands, k) && NeedsRepair(w.members, k)
  {
    TargetsOfQuery(bands, w.members);
    forall k
      ensures k in Targets(DriftQuery(bands, w.members)) <==> BackfillsPair(bands, k) && NeedsRepair(w.members, k)
    {
      if BackfillsPair(bands, k) && NeedsRepair(w.members, k) {
        var b :| b in bands && !b.deleted && IsUuidShaped(b.id) && IsUuidShaped(b.ownerId) && Pair(b) == k;
        assert IsRepairable(w.members, b);
      }
    }
  }

  lemma TargetMakesDifference(before: Members, s: set<Key>, t: set<Key>, a: Members, b: Members, k: Key)
    requires Repaired(before, s, a) && Repaired(before, t, b)
    requires k in s && k !in t && NeedsRepair(before, k)
    ensures k !in b || a[k].role != b[k].role || a[k].status != b[k].status
  {
    assert IsActiveOwner(a, k);
    assert k in b ==> b[k] == before[k];
  }

  /** The outcomes of two repairs of needy pairs agree exactly when the targets do. */
  lemma SameRelationIffSameTargets(before: Members, s: set<Key>, t: set<Key>, a: Members, b: Members)
    requires Repaired(before, s, a) && Repaired(before, t, b)
    requires forall k :: k in s || k in t ==> NeedsRepair(before, k)
    ensures SameRelation(before, a, b) <==> s == t
  {
    if s == t {
      SameTargetsSameRelation(before, s, a, b);
    } else if k :| k in s && k !in t {
      TargetMakesDifference(before, s, t, a, b, k);
    } else {
      var k :| k in t && k !in s;
      TargetMakesDifference(before, t, s, b, a, k);
    }
  }

  /** Of the pairs in need of repair both programs reconcile the same. */
  ghost predicate SameNeedyPairs(w: World, legacy: seq<LegacyBand>, bands: seq<Band>) {
    forall k :: NeedsRepair(w.members, k) ==> (ReconcilesPair(w, legacy, k) <==> BackfillsPair(bands, k))
  }

  lemma SameTargetsIffSameNeedyPairs(w: World, legacy: seq<LegacyBand>, bands: seq<Band>)
    ensures ReconcileTargets(w, legacy) == Targets(DriftQuery(bands, w.members)) <==> SameNeedyPairs(w, legacy, bands)
  {
    var s, t := ReconcileTargets(w, legacy), Targets(DriftQuery(bands, w.members));
    TargetsAreTheNeedyPairs(w, legacy, bands);
    if SameNeedyPairs(w, legacy, bands) {
      forall k ensures k in s <==> k in t {
        assert NeedsRepair(w.members, k) ==> (ReconcilesPair(w, legacy, k) <==> BackfillsPair(bands, k));
      }
    }
    if s == t {
      forall k | NeedsRepair(w.members, k) ensures ReconcilesPair(w, legacy, k) <==> BackfillsPair(bands, k) {
        assert k in s <==> k in t;
      }
    }
  }

  /**
   * From any starting table, and for any bands either program sees, the loop and the backfill leave
   * the same relation exactly when, of the pairs in need of repair, the migrator's bands with known
   * owners and the live, well-formed bands of the table have the same.
   */
  lemma LoopAgreesWithBackfillIff(uuid: nat -> string, w: World, legacy: seq<LegacyBand>, bands: seq<Band>,
                                  uuid': nat -> string, indexed: bool)
    requires FreshWorld(uuid, w) && Ready(w, legacy)
    requires DistinctBands(bands) && FreshIds(uuid', w.members)
    ensures Backfilled(bands, w.members, uuid', indexed).Some?
    ensures SameRelation(w.members, Reconcile(uuid, w, legacy, indexed).world.members,
                         Backfilled(bands, w.members, uuid', indexed).value)
      <==> SameNeedyPairs(w, legacy, bands)
  {
    var s, t := ReconcileTargets(w, legacy), Targets(DriftQuery(bands, w.members));
    ReconcileRepairs(uuid, w, legacy, indexed);
    BackfillRepairs(bands, w.members, uuid', indexed);
    TargetsAreTheNeedyPairs(w, legacy, bands);
    SameRelationIffSameTargets(w.members, s, t, Reconcile(uuid, w, legacy, indexed).world.members,
                               Backfilled(bands, w.members, uuid', indexed).value);
    SameTargetsIffSameNeedyPairs(w, legacy, bands);
  }

  ghost predicate ListsPair(bands: seq<Band>, k: Key) {
    exists b :: b in bands && Pair(b) == k
  }

  /** The table lists the bands the migrator reconciles, under the same ids and owners. */
  ghost predicate SameBands(w: World, legacy: seq<LegacyBand>, bands: seq<Band>) {
    forall k :: ReconcilesPair(w, legacy, k) <==> ListsPair(bands, k)
  }

  /** On the same bands the two agree exactly when every band in need of repair is live with well-formed ids. */
  lemma SameBandsAgreeIff(w: World, legacy: seq<LegacyBand>, bands: seq<Band>)
    requires SameBands(w, legacy, bands) && DistinctBands(bands)
    ensures SameNeedyPairs(w, legacy, bands)
      <==> forall b :: b in bands && NeedsRepair(w.members, Pair(b)) ==> IsRepairable(w.members, b)
  {
    forall k ensures BackfillsPair(bands, k) ==> ListsPair(bands, k) {
    }
    if SameNeedyPairs(w, legacy, bands) {
      forall b | b in bands && NeedsRepair(w.members, Pair(b)) ensures IsRepairable(w.members, b) {
        assert ListsPair(bands, Pair(b)) && ReconcilesPair(w, legacy, Pair(b)) && BackfillsPair(bands, Pair(b));
        var x :| x in bands && !x.deleted && IsUuidShaped(x.id) && IsUuidShaped(x.ownerId) && Pair(x) == Pair(b);
        var i :| 0 <= i < |bands| && bands[i] == x;
        var j :| 0 <= j < |bands| && bands[j] == b;
      }
    }
    if forall b :: b in bands && NeedsRepair(w.members, Pair(b)) ==> IsRepairable(w.members, b) {
      forall k | NeedsRepair(w.members, k) ensures ReconcilesPair(w, legacy, k) <==> BackfillsPair(bands, k) {
        if ListsPair(bands, k) {
          var b :| b in bands && Pair(b) == k;
          assert IsRepairable(w.members, b);
        }
      }
    }
  }

  /** The legacy band 1 of user 7, migrated as `b`; its owner's row is no active owner's. */
  function OneDemotedOwner(b: Band, row: Member): World {
    World(Ids(map[BANDS := map["1" := b.id], USERS := map["7" := b.ownerId]], 0), map[Pair(b) := row])
  }

  /** Both programs leave the same relation on that band. */
  ghost predicate AgreeOnDemotedOwner(uuid: nat -> string, uuid': nat -> string, b: Band, row: Member, indexed: bool) {
    var w := OneDemotedOwner(b, row);
    var after := Backfilled([b], w.members, uuid', indexed);
    after.Some? && SameRelation(w.members, Reconcile(uuid, w, [LegacyBand("1", Some("7"))], indexed).world.members,
                                after.value)
  }

  lemma LoopRepairsDemotedOwner(uuid: nat -> string, b: Band, row: Member, indexed: bool)
    requires b.id != "" && b.ownerId != "" && (row.role != "owner" || row.status != "active")
    ensures var w := OneDemotedOwner(b, row);
      Reconcile(uuid, w, [LegacyBand("1", Some("7"))], indexed).world.members
      == map[Pair(b) := row.(role := "owner", status := "active")]
  {
    var w, l := OneDemotedOwner(b, row), LegacyBand("1", Some("7"));
    assert BANDS[0] != USERS[0];
    assert Mapped(uuid, w.ids, BANDS, "1") == w.ids && OwnerPair(w.ids, l) == Pair(b);
    assert OtherOwners(w.members, Pair(b)) == {};
    assert [l][..0] == [] && Reconcile(uuid, w, [], indexed) == Reconciled(w, 0);
  }

  lemma BackfillOfDemotedOwner(uuid: nat -> string, b: Band, row: Member, indexed: bool)
    requires row.role != "owner" || row.status != "active"
    ensures Backfilled([b], OneDemotedOwner(b, row).members, uuid, indexed)
      == Some(map[Pair(b) := if !b.deleted && IsUuidShaped(b.id) && IsUuidShaped(b.ownerId)
                             then row.(role := "owner", status := "active") else row])
  {
    var members := OneDemotedOwner(b, row).members;
    assert OtherOwners(members, Pair(b)) == {};
    assert [b][1..] == [] && DriftQuery([], members) == [];
    var rows := DriftQuery([b], members);
    assert rows == DriftLine(b, members);
    assert forall a: Action :: OfAction([], a) == [];
    var repaired := map[Pair(b) := row.(role := "owner", status := "active")];
    if rows == [] {
      assert Plan(rows, uuid) == [];
    } else {
      assert rows[..0] == [] && rows == [ToDriftRow(members, b)];
      assert forall a :: OfAction(rows, a) == if Classify(rows[0]) == a then rows else [];
      assert Classify(rows[0]) != Insert;
      if Classify(rows[0]) == Promote {
        var statement := UpdateRow(Pair(b));
        assert Plan(rows, uuid) == [statement] && [statement][1..] == [];
        assert members[Pair(b) := row.(role := "owner", status := "active")] == repaired;
        assert Execute(members, statement, indexed) == Some(repaired);
        assert ExecuteAll(repaired, [], indexed) == Some(repaired);
      } else {
        assert Plan(rows, uuid) == [];
      }
    }
  }

  /** With a demoted owner's row the two agree exactly when the band is live and both its ids are well-formed. */
  lemma DemotedOwnerAgreesIff(uuid: nat -> string, uuid': nat -> string, b: Band, row: Member, indexed: bool)
    requires b.id != "" && b.ownerId != "" && (row.role != "owner" || row.status != "active")
    ensures AgreeOnDemotedOwner(uuid, uuid', b, row, indexed)
      <==> !b.deleted && IsUuidShaped(b.id) && IsUuidShaped(b.ownerId)
  {
    LoopRepairsDemotedOwner(uuid, b, row, indexed);
    BackfillOfDemotedOwner(uuid', b, row, indexed);
    assert Pair(b) in OneDemotedOwner(b, row).members;
  }

  const SOME_BAND := "0b1e6c52-7d3a" + "-4f08-9c41" + "-5a2e8d6f1b90"
  const SOME_USER := "c7a90f13-2e54" + "-4b6d-8f72" + "-91d3e0a4b586"

  lemma SomeIdsAreWellFormed()
    ensures IsUuidShaped(SOME_BAND) && IsUuidShaped(SOME_USER)
  {
  }

  /** A band whose owner was demoted: the programs agree while it is live, and differ once it is deleted. */
  lemma DeletedBandDiffers(uuid: nat -> string, uuid': nat -> string, indexed: bool)
    ensures var row, live := Member("m", "admin", None, "active"), Band(SOME_BAND, "slug", SOME_USER, false);
      AgreeOnDemotedOwner(uuid, uuid', live, row, indexed)
      && !AgreeOnDemotedOwner(uuid, uuid', live.(deleted := true), row, indexed)
  {
    var row, live := Member("m", "admin", None, "active"), Band(SOME_BAND, "slug", SOME_USER, false);
    assert "admin"[0] != "owner"[0];
    SomeIdsAreWellFormed();
    DemotedOwnerAgreesIff(uuid, uuid', live, row, indexed);
    DemotedOwnerAgreesIff(uuid, uuid', live.(deleted := true), row, indexed);
  }

  // --- The phase as the script runs it -------------------------------------

  class Migration {
    var ids: Ids
    var members: Members
    const indexed: bool

    ghost function Contents(): World
      reads this
    {
      World(ids, members)
    }

    constructor (ids: Ids, members: Members, indexed: bool)
      ensures Contents() == World(ids, members) && this.indexed == indexed
    {
      this.ids, this.members, this.indexed := ids, members, indexed;
    }

    /** `mapId`: fills the saved map in place and returns the id. */
    method MapId(uuid: nat -> string, table: string, key: string) returns (id: string)
      modifies this`ids
      ensures ids == Mapped(uuid, old(ids), table, key)
      ensures id == Lookup(ids, table, Some(key)).GetOr("")
    {
      var stored := ids.stored;
      if table !in stored {
        stored := stored[table := map[]];
      }
      if key !in stored[table] || stored[table][key] == "" {
        stored := stored[table := stored[table][key := uuid(ids.drawn)]];
        ids := Ids(stored, ids.drawn + 1);
      }
      id := stored[table][key];
    }

    method MapAllBands(uuid: nat -> string, bands: seq<LegacyBand>)
      modifies this`ids
      ensures ids == MapBands(uuid, old(ids), bands)
    {
      for i := 0 to |bands|
        invariant ids == MapBands(uuid, old(ids), bands[..i])
      {
        assert bands[..i + 1][..i] == bands[..i];
        var _ := MapId(uuid, BANDS, bands[i].id);
      }
      assert bands[..|bands|] == bands;
    }

    method InsertAllMembers(uuid: nat -> string, rows: seq<LegacyMember>)
      modifies this
      ensures Contents() == InsertMembers(uuid, old(Contents()), rows, indexed)
    {
      for i := 0 to |rows|
        invariant Contents() == InsertMembers(uuid, old(Contents()), rows[..i], indexed)
      {
        assert rows[..i + 1][..i] == rows[..i];
        var m := rows[i];
        if Known(ids, BANDS, m.bandId) && Known(ids, USERS, m.userId) {
          var k := (Lookup(ids, BANDS, m.bandId).value, Lookup(ids, USERS, m.userId).value);
          var id := MapId(uuid, MEMBERS, m.id);
          var role := if m.role == "" then "member" else m.role;
          var row := Member(id, role, m.position, "active");
          members := InsertOrIgnore(members, k, row, indexed);
        }
      }
      assert rows[..|rows|] == rows;
    }

    /** The body of the reconcile loop. */
    method ReconcileOwner(uuid: nat -> string, b: LegacyBand, ownersFixed: nat) returns (count: nat)
      modifies this
      ensures Reconciled(Contents(), count) == ReconcileBand(uuid, Reconciled(old(Contents()), ownersFixed), b, indexed)
    {
      count := ownersFixed;
      var bandId := MapId(uuid, BANDS, b.id);
      if !Known(ids, USERS, b.ownerId) {
        return;
      }
      var k := (bandId, Lookup(ids, USERS, b.ownerId).value);
      if OtherOwners(members, k) != {} {
        return;
      }
      if k !in members {
        var row := Member(uuid(ids.drawn), "owner", None, "active");
        ids := ids.(drawn := ids.drawn + 1);
        members := InsertOrIgnore(members, k, row, indexed);
        count := count + 1;
      } else if members[k].role != "owner" || members[k].status != "active" {
        members := members[k := members[k].(role := "owner", status := "active")];
        count := count + 1;
      }
    }

    method ReconcileOwners(uuid: nat -> string, bands: seq<LegacyBand>) returns (ownersFixed: nat)
      modifies this
      ensures Reconciled(Contents(), ownersFixed) == Reconcile(uuid, old(Contents()), bands, indexed)
    {
      ownersFixed := 0;
      for i := 0 to |bands|
        invariant Reconciled(Contents(), ownersFixed) == Reconcile(uuid, old(Contents()), bands[..i], indexed)
      {
        assert bands[..i + 1][..i] == bands[..i];
        ownersFixed := ReconcileOwner(uuid, bands[i], ownersFixed);
      }
      assert bands[..|bands|] == bands;
    }

    method Run(uuid: nat -> string, bands: seq<LegacyBand>, rows: seq<LegacyMember>) returns (ownersFixed: nat)
      modifies this
      ensures Reconciled(Contents(), ownersFixed) == Phase(uuid, old(Contents()), bands, rows, indexed)
    {
      MapAllBands(uuid, bands);
      InsertAllMembers(uuid, rows);
      ownersFixed := ReconcileOwners(uuid, bands);
    }
  }
}
