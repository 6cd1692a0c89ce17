/** Emptying every application table, children before parents (`clearAllTables` in e2e/reset-db.ts). */
module ResetDb {
  /** What a row's foreign key points at. */
  datatype Ref = Ref(table: string, row: int)

  /** Each present table's rows, and the references of each row. */
  type Tables = map<string, map<int, set<Ref>>>

  predicate Exists(tables: Tables, ref: Ref) {
    ref.table in tables && ref.row in tables[ref.table]
  }

  predicate Refers(tables: Tables, table: string, ref: Ref) {
    table in tables && exists row :: row in tables[table] && ref in tables[table][row]
  }

  ghost predicate NoDangling(tables: Tables) {
    forall table, ref :: Refers(tables, table, ref) ==> Exists(tables, ref)
  }

  /** The order reversed, without the tables the database lacks. */
  function ToClear(order: seq<string>, present: set<string>): seq<string> {
    if order == [] then [] else
    var last := order[|order| - 1];
    (if last in present then [last] else []) + ToClear(order[..|order| - 1], present)
  }

  function DeleteAll(tables: Tables, names: seq<string>): Tables {
    if names == [] then tables
    else DeleteAll(tables, names[..|names| - 1])[names[|names| - 1] := map[]]
  }

  /** The tables after the first `k` deletes. */
  function AfterDeletes(tables: Tables, order: seq<string>, k: nat): Tables
    requires k <= |ToClear(order, tables.Keys)|
  {
    DeleteAll(tables, ToClear(order, tables.Keys)[..k])
  }

  ghost predicate Distinct(order: seq<string>) {
    forall i, j :: 0 <= i < j < |order| ==> order[i] != order[j]
  }

  /** The first table comes before the second in the order. */
  ghost predicate Before(order: seq<string>, a: string, b: string) {
    exists i, j :: 0 <= i < j < |order| && order[i] == a && order[j] == b
  }

  /** Every table that refers to another, listed one is itself listed, after it. */
  ghost predicate ParentsFirst(tables: Tables, order: seq<string>) {
    forall table, ref :: Refers(tables, table, ref) && ref.table != table && ref.table in order ==>
      Before(order, ref.table, table)
  }

  // --- The reversed order --------------------------------------------------

  lemma {:induction false} ToClearIsListed(order: seq<string>, present: set<string>)
    ensures forall t :: t in ToClear(order, present) <==> t in order && t in present
  {
    if order == [] {
    } else {
      ToClearIsListed(order[..|order| - 1], present);
      assert order == order[..|order| - 1] + [order[|order| - 1]];
    }
  }

  lemma {:induction false} DeleteAllEmpties(tables: Tables, names: seq<string>)
    requires forall t :: t in names ==> t in tables
    ensures DeleteAll(tables, names) == map t | t in tables :: if t in names then map[] else tables[t]
  {
    if names == [] {
    } else {
      var init, last := names[..|names| - 1], names[|names| - 1];
      assert names == init + [last];
      DeleteAllEmpties(tables, init);
    }
  }

  /** Of two present tables the later one in the order is cleared first. */
  lemma {:induction false} LaterIsClearedFirst(order: seq<string>, present: set<string>, i: nat, j: nat, k: nat)
    requires Distinct(order) && i < j < |order| && order[j] in present
    requires k <= |ToClear(order, present)| && order[i] in ToClear(order, present)[..k]
    ensures order[j] in ToClear(order, present)[..k]
  {
    var n := |order| - 1;
    var head := if order[n] in present then [order[n]] else [];
    var tail := ToClear(order[..n], present);
    var cleared := ToClear(order, present);
    if j == n {
      assert cleared[..k][0] == order[n];
    } else {
      var p :| 0 <= p < k && cleared[p] == order[i];
      assert p >= |head|;
      assert tail[..k - |head|][p - |head|] == order[i];
      LaterIsClearedFirst(order[..n], present, i, j, k - |head|);
      var q :| 0 <= q < k - |head| && tail[q] == order[j];
      assert cleared[..k][q + |head|] == order[j];
    }
  }

  /** When a present table is cleared, only later tables of the order have been cleared before it. */
  lemma {:induction false} ClearedUpTo(order: seq<string>, present: set<string>, i: nat) returns (k: nat)
    requires i < |order| && order[i] in present
    ensures k <= |ToClear(order, present)| && order[i] in ToClear(order, present)[..k]
    ensures forall t :: t in ToClear(order, present)[..k] ==> exists j :: i <= j < |order| && order[j] == t
  {
    var n := |order| - 1;
    var head := if order[n] in present then [order[n]] else [];
    if i == n {
      k := 1;
    } else {
      k := ClearedUpTo(order[..n], present, i);
      assert ToClear(order, present)[..k + |head|] == head + ToClear(order[..n], present)[..k];
      k := k + |head|;
    }
  }

  // --- Main results --------------------------------------------------------

  /** Clearing empties the listed tables that exist and leaves every other table alone. */
  lemma ClearingEmptiesListed(tables: Tables, order: seq<string>)
    ensures AfterDeletes(tables, order, |ToClear(order, tables.Keys)|)
      == map t | t in tables :: if t in order then map[] else tables[t]
  {
    ToClearIsListed(order, tables.Keys);
    var cleared := ToClear(order, tables.Keys);
    assert cleared[..|cleared|] == cleared;
    DeleteAllEmpties(tables, cleared);
  }

  lemma RefersAfterDeletes(tables: Tables, order: seq<string>, k: nat, table: string, ref: Ref)
    requires k <= |ToClear(order, tables.Keys)|
    ensures Refers(AfterDeletes(tables, order, k), table, ref)
      <==> Refers(tables, table, ref) && table !in ToClear(order, tables.Keys)[..k]
    ensures Exists(AfterDeletes(tables, order, k), ref)
      <==> Exists(tables, ref) && ref.table !in ToClear(order, tables.Keys)[..k]
  {
    ToClearIsListed(order, tables.Keys);
    DeleteAllEmpties(tables, ToClear(order, tables.Keys)[..k]);
  }

  lemma NeverDanglesIfParentsFirst(tables: Tables, order: seq<string>, k: nat)
    requires NoDangling(tables) && Distinct(order) && k <= |ToClear(order, tables.Keys)|
    requires ParentsFirst(tables, order)
    ensures NoDangling(AfterDeletes(tables, order, k))
  {
    var after := AfterDeletes(tables, order, k);
    forall table, ref | Refers(after, table, ref) ensures Exists(after, ref) {
      RefersAfterDeletes(tables, order, k, table, ref);
      if ref.table in ToClear(order, tables.Keys)[..k] {
        ToClearIsListed(order, tables.Keys);
        assert ref.table != table;
        var i, j :| 0 <= i < j < |order| && order[i] == ref.table && order[j] == table;
        LaterIsClearedFirst(order, tables.Keys, i, j, k);
      }
    }
  }

  lemma DanglesUnlessParentsFirst(tables: Tables, order: seq<string>, table: string, ref: Ref) returns (k: nat)
    requires NoDangling(tables) && Distinct(order)
    requires Refers(tables, table, ref) && ref.table != table && ref.table in order && !Before(order, ref.table, table)
    ensures k <= |ToClear(order, tables.Keys)| && !NoDangling(AfterDeletes(tables, order, k))
  {
    var i :| 0 <= i < |order| && order[i] == ref.table;
    assert Exists(tables, ref);
    k := ClearedUpTo(order, tables.Keys, i);
    assert table !in ToClear(order, tables.Keys)[..k];
    RefersAfterDeletes(tables, order, k, table, ref);
  }

  /** No single delete ever leaves a dangling reference, exactly when the order lists parents first. */
  lemma NeverDanglesIff(tables: Tables, order: seq<string>)
    requires NoDangling(tables) && Distinct(order)
    ensures (forall k: nat :: k <= |ToClear(order, tables.Keys)| ==> NoDangling(AfterDeletes(tables, order, k)))
      <==> ParentsFirst(tables, order)
  {
    if ParentsFirst(tables, order) {
      forall k: nat | k <= |ToClear(order, tables.Keys)| ensures NoDangling(AfterDeletes(tables, order, k)) {
        NeverDanglesIfParentsFirst(tables, order, k);
      }
    } else {
      var table, ref :| Refers(tables, table, ref) && ref.table != table && ref.table in order
        && !Before(order, ref.table, table);
      var k := DanglesUnlessParentsFirst(tables, order, table, ref);
    }
  }

  lemma DeleteOneMore(tables: Tables, order: seq<string>, k: nat)
    requires k < |ToClear(order, tables.Keys)|
    ensures AfterDeletes(tables, order, k + 1)
      == AfterDeletes(tables, order, k)[ToClear(order, tables.Keys)[k] := map[]]
  {
    var cleared := ToClear(order, tables.Keys);
    assert cleared[..k + 1][..k] == cleared[..k];
  }

  // --- The function as the script runs it ----------------------------------

  class Database {
    var tables: Tables
    var foreignKeys: bool

    constructor (tables: Tables)
      ensures this.tables == tables && foreignKeys
    {
      this.tables, foreignKeys := tables, true;
    }

    /** The loop inside `try`: deleting from a table of `broken` throws. */
    method DeleteInOrder(order: seq<string>, cleared: seq<string>, broken: set<string>) returns (deletes: nat)
      requires cleared == ToClear(order, tables.Keys)
      modifies this`tables
      ensures deletes <= |cleared| && tables == AfterDeletes(old(tables), order, deletes)
      ensures deletes < |cleared| ==> cleared[deletes] in broken
      ensures forall t :: t in cleared[..deletes] ==> t !in broken
    {
      deletes := 0;
      while deletes < |cleared|
        invariant deletes <= |cleared| && tables == AfterDeletes(old(tables), order, deletes)
        invariant forall t :: t in cleared[..deletes] ==> t !in broken
      {
        if cleared[deletes] in broken {
          return;
        }
        DeleteOneMore(old(tables), order, deletes);
        tables := tables[cleared[deletes] := map[]];
        deletes := deletes + 1;
      }
    }

    /** `threw` when a delete did; the caller then sees the exception instead of `cleared`. */
    method ClearAllTables(order: seq<string>, broken: set<string>)
      returns (cleared: seq<string>, threw: bool, ghost deletes: nat)
      modifies this
      ensures foreignKeys
      ensures cleared == ToClear(order, old(tables).Keys) && deletes <= |cleared|
      ensures tables == AfterDeletes(old(tables), order, deletes)
      ensures threw <==> exists t :: t in order && t in old(tables) && t in broken
      ensures if threw then deletes < |cleared| && cleared[deletes] in broken
              else tables == map t | t in old(tables) :: if t in order then map[] else old(tables)[t]
    {
      cleared := ToClear(order, tables.Keys);
      ToClearIsListed(order, tables.Keys);
      ClearingEmptiesListed(tables, order);
      foreignKeys := false;
      var n := DeleteInOrder(order, cleared, broken);
      deletes, threw := n, n < |cleared|;
      assert !threw ==> cleared[..n] == cleared;
      foreignKeys := true;
    }
  }
}
