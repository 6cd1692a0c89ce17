/** The migrator's saved map from legacy ids to new ones (scripts/migrate-from-postgres.ts). */
module IdMap {
  import opened Wrappers

  /** `stored[table][key]`; `drawn` counts the random UUIDs used so far. */
  datatype Ids = Ids(stored: map<string, map<string, string>>, drawn: nat)

  /** `lookupId`: the id stored for a legacy key, a null key having none. */
  function Lookup(ids: Ids, table: string, key: Option<string>): Option<string> {
    if key.Some? && table in ids.stored && key.value in ids.stored[table] then Some(ids.stored[table][key.value])
    else None
  }

  /** A usable id: the source treats null and the empty string alike. */
  predicate Known(ids: Ids, table: string, key: Option<string>) {
    Lookup(ids, table, key).Some? && Lookup(ids, table, key).value != ""
  }

  /** The id of a known key. */
  function IdOf(ids: Ids, table: string, key: string): string
    requires Known(ids, table, Some(key))
  {
    Lookup(ids, table, Some(key)).value
  }

  /** `mapId`: the stored id, or a fresh one that is stored first. `uuid` lists the random draws. */
  function Mapped(uuid: nat -> string, ids: Ids, table: string, key: string): Ids {
    var rows := if table in ids.stored then ids.stored[table] else map[];
    if key in rows && rows[key] != "" then ids
    else Ids(ids.stored[table := rows[key := uuid(ids.drawn)]], ids.drawn + 1)
  }

  /** Later draws are non-empty, pairwise different, and different from everything in use. */
  ghost predicate FreshAhead(uuid: nat -> string, drawn: nat, used: iset<string>) {
    && (forall i :: drawn <= i ==> uuid(i) != "" && uuid(i) !in used)
    && (forall i, j :: drawn <= i < j ==> uuid(i) != uuid(j))
  }

  ghost function StoredIds(ids: Ids): iset<string> {
    iset t, k | t in ids.stored && k in ids.stored[t] :: ids.stored[t][k]
  }

  ghost predicate FreshFor(uuid: nat -> string, ids: Ids) {
    FreshAhead(uuid, ids.drawn, StoredIds(ids))
  }

  predicate ShareId(ids: Ids, t: string, k: string, u: string, l: string) {
    Known(ids, t, Some(k)) && Known(ids, u, Some(l)) && IdOf(ids, t, k) == IdOf(ids, u, l)
  }

  /** Different (table, key) pairs never share an id. */
  ghost predicate Injective(ids: Ids) {
    forall t, k, u, l :: ShareId(ids, t, k, u, l) ==> t == u && k == l
  }

  /** Every known id of `ids` is the same in `later`. */
  ghost predicate Extends(ids: Ids, later: Ids) {
    forall t, k :: Known(ids, t, Some(k)) ==> Known(later, t, Some(k)) && IdOf(later, t, k) == IdOf(ids, t, k)
  }

  /** Once mapped, a key keeps its id and mapping it again changes nothing; no other key is affected. */
  lemma MapIdIsStable(uuid: nat -> string, ids: Ids, table: string, key: string)
    requires FreshFor(uuid, ids)
    ensures var ids' := Mapped(uuid, ids, table, key);
      && Known(ids', table, Some(key))
      && Mapped(uuid, ids', table, key) == ids'
      && Extends(ids, ids')
      && FreshFor(uuid, ids')
      && forall t, k :: (t, k) != (table, Some(key)) ==> Lookup(ids', t, k) == Lookup(ids, t, k)
  {
    var ids' := Mapped(uuid, ids, table, key);
    if ids' != ids {
      forall id | id in StoredIds(ids') ensures id in StoredIds(ids) || id == uuid(ids.drawn) {
        var t, k :| t in ids'.stored && k in ids'.stored[t] && ids'.stored[t][k] == id;
        assert (t, k) == (table, key) || ids.stored[t][k] == id;
      }
    }
  }

  /** Mapping keeps distinct (table, key) pairs on distinct ids. */
  lemma MapIdStaysInjective(uuid: nat -> string, ids: Ids, table: string, key: string)
    requires FreshFor(uuid, ids) && Injective(ids)
    ensures Injective(Mapped(uuid, ids, table, key))
  {
    var ids' := Mapped(uuid, ids, table, key);
    MapIdIsStable(uuid, ids, table, key);
    if ids' != ids {
      forall t, k | Known(ids', t, Some(k)) && (t, k) != (table, key) ensures IdOf(ids', t, k) != uuid(ids.drawn) {
        assert Lookup(ids, t, Some(k)) == Lookup(ids', t, Some(k));
        assert ids.stored[t][k] in StoredIds(ids);
      }
      assert IdOf(ids', table, key) == uuid(ids.drawn);
      forall t, k, u, l | ShareId(ids', t, k, u, l)
        ensures t == u && k == l
      {
        if (t, k) != (table, key) && (u, l) != (table, key) {
          assert Lookup(ids, t, Some(k)) == Lookup(ids', t, Some(k));
          assert Lookup(ids, u, Some(l)) == Lookup(ids', u, Some(l));
          assert ShareId(ids, t, k, u, l);
        }
      }
    }
  }
}
