/** The script `export` writes: an upsert per row, with foreign keys to later tables left out,
    and updates at the end that fill them in. Statements are given their meaning on a store
    with immediate foreign-key checks, and the script's effect is derived from it. */
module SeedScript {
  import opened SeedSchema

  // ----- What statements do -----

  datatype Id = Id(table: string, key: seq<Value>)

  type Store = map<Id, Cells>

  datatype Loaded = Rejected | Ok(store: Store)

  /** `INSERT ... ON CONFLICT (primary key) DO UPDATE` over the listed columns, and
      `UPDATE ... WHERE primary key = key`. */
  datatype Statement =
    | Insert(table: string, listed: seq<string>, cells: Cells)
    | Update(table: string, key: seq<Value>, sets: seq<string>, cells: Cells)

  function Only(cells: Cells, columns: seq<string>): Cells { map c | c in cells && c in columns :: cells[c] }

  function Without(cells: Cells, columns: seq<string>): Cells { map c | c in cells && c !in columns :: cells[c] }

  function KeyOf(table: Table, cells: Cells): seq<Value> {
    seq(|table.primaryKey|, i requires 0 <= i < |table.primaryKey| =>
      if table.primaryKey[i] in cells then cells[table.primaryKey[i]] else "")
  }

  function Filter(columns: seq<string>, keep: string -> bool): (r: seq<string>)
    ensures forall c :: c in r <==> c in columns && keep(c)
  {
    if columns == [] then []
    else (if keep(columns[0]) then [columns[0]] else []) + Filter(columns[1..], keep)
  }

  ghost predicate Distinct<T>(s: seq<T>) { forall i, j :: 0 <= i < j < |s| ==> s[i] != s[j] }

  /** The effect of a statement before constraints are checked. A column may be assigned only
      once; a conflicting insert overwrites the listed columns outside the primary key. */
  ghost function Effect(schema: Schema, store: Store, s: Statement): Loaded
    requires s.table in schema
  {
    var table := schema[s.table];
    match s
    case Insert(name, listed, cells) =>
      var id := Id(name, KeyOf(table, cells));
      if id !in store then Ok(store[id := Only(cells, listed)])
      else
        var updatable := Filter(listed, c => c !in table.primaryKey);
        Ok(store[id := Without(store[id], updatable) + Only(cells, updatable)])
    case Update(name, key, sets, cells) =>
      if !Distinct(sets) then Rejected
      else if Id(name, key) !in store then Ok(store)
      else Ok(store[Id(name, key) := Without(store[Id(name, key)], sets) + Only(cells, sets)])
  }

  /** A stored row holds the value a foreign key refers to. */
  ghost predicate Refers(store: Store, fk: ForeignKey, v: Value) {
    exists id :: id in store && id.table == fk.parentTable && fk.parentColumn in store[id] && store[id][fk.parentColumn] == v
  }

  ghost predicate RowRefers(schema: Schema, store: Store, table: string, cells: Cells) {
    table in schema ==> forall fk :: fk in schema[table].foreignKeys && fk.column in cells ==> Refers(store, fk, cells[fk.column])
  }

  /** Every foreign key holds. */
  ghost predicate Consistent(schema: Schema, store: Store) {
    forall id :: id in store ==> RowRefers(schema, store, id.table, store[id])
  }

  ghost function Exec(schema: Schema, store: Store, s: Statement): Loaded
    requires s.table in schema
  {
    var r := Effect(schema, store, s);
    if r.Ok? && Consistent(schema, r.store) then r else Rejected
  }

  ghost predicate Known(schema: Schema, script: seq<Statement>) {
    forall s :: s in script ==> s.table in schema
  }

  ghost function Run(schema: Schema, store: Store, script: seq<Statement>): Loaded
    requires Known(schema, script)
    decreases |script|
  {
    if script == [] then Ok(store)
    else
      var r := Exec(schema, store, script[0]);
      if r.Rejected? then Rejected else Run(schema, r.store, script[1..])
  }

  // ----- What is written for a row -----

  /** Deferred columns by table. */
  type Deferral = map<string, seq<string>>

  function DeferredOf(d: Deferral, table: string): seq<string> { if table in d then d[table] else [] }

  /** `_insert_statement`: all columns but the deferred ones. */
  function Listed(schema: Schema, d: Deferral, table: string): seq<string>
    requires table in schema
  {
    Filter(schema[table].columns, c => c !in DeferredOf(d, table))
  }

  function InsertOf(schema: Schema, d: Deferral, row: Row): Statement
    requires row.table in schema
  {
    Insert(row.table, Listed(schema, d, row.table), Only(row.cells, Listed(schema, d, row.table)))
  }

  /** The deferred columns a row has a value for. */
  function Present(d: Deferral, row: Row): seq<string> {
    Filter(DeferredOf(d, row.table), c => c in row.cells)
  }

  /** `_update_statement`. */
  function UpdateOf(schema: Schema, d: Deferral, row: Row): Statement
    requires row.table in schema
  {
    Update(row.table, KeyOf(schema[row.table], row.cells), Present(d, row), Only(row.cells, Present(d, row)))
  }

  ghost predicate KnownRows(schema: Schema, rows: seq<Row>) {
    forall row :: row in rows ==> row.table in schema
  }

  function Concat(blocks: seq<seq<Statement>>): (r: seq<Statement>)
    ensures forall s :: s in r <==> exists i :: 0 <= i < |blocks| && s in blocks[i]
  {
    if blocks == [] then [] else Concat(blocks[..|blocks|-1]) + blocks[|blocks|-1]
  }

  lemma ConcatSnoc(blocks: seq<seq<Statement>>, block: seq<Statement>)
    ensures Concat(blocks + [block]) == Concat(blocks) + block
  {
    assert (blocks + [block])[..|blocks|] == blocks;
  }

  function InsertBlocks(schema: Schema, d: Deferral, rows: seq<Row>): (r: seq<seq<Statement>>)
    requires KnownRows(schema, rows)
    ensures |r| == |rows| && forall i :: 0 <= i < |rows| ==> r[i] == [InsertOf(schema, d, rows[i])]
  {
    seq(|rows|, i requires 0 <= i < |rows| => [InsertOf(schema, d, rows[i])])
  }

  /** Rows without deferred values need no update. */
  function UpdateBlock(schema: Schema, d: Deferral, row: Row): seq<Statement>
    requires row.table in schema
  {
    if Present(d, row) != [] then [UpdateOf(schema, d, row)] else []
  }

  function UpdateBlocks(schema: Schema, d: Deferral, rows: seq<Row>): (r: seq<seq<Statement>>)
    requires KnownRows(schema, rows)
    ensures |r| == |rows| && forall i :: 0 <= i < |rows| ==> r[i] == UpdateBlock(schema, d, rows[i])
  {
    seq(|rows|, i requires 0 <= i < |rows| => UpdateBlock(schema, d, rows[i]))
  }

  function Script(schema: Schema, d: Deferral, rows: seq<Row>): (r: seq<Statement>)
    requires KnownRows(schema, rows)
    ensures Known(schema, r)
  {
    Concat(InsertBlocks(schema, d, rows)) + Concat(UpdateBlocks(schema, d, rows))
  }

  // ----- Stages of a load -----

  /** A row on its way into the store: as first inserted, and complete. */
  datatype Entry = Entry(id: Id, early: Cells, full: Cells)

  ghost predicate Sub(a: Cells, b: Cells) { forall c :: c in a ==> c in b && a[c] == b[c] }

  ghost predicate ValidEntries(es: seq<Entry>) {
    && (forall i :: 0 <= i < |es| ==> Sub(es[i].early, es[i].full))
    && (forall i, j :: 0 <= i < j < |es| ==> es[i].id != es[j].id)
  }

  /** Entry i once the first u entries are complete. */
  function CellsAt(es: seq<Entry>, i: nat, u: nat): Cells
    requires i < |es|
  {
    if i < u then es[i].full else es[i].early
  }

  /** The first n entries, the first u of them complete. */
  ghost function StoreAt(es: seq<Entry>, n: nat, u: nat): Store
    requires n <= |es|
  {
    if n == 0 then map[] else StoreAt(es, n - 1, u)[es[n-1].id := CellsAt(es, n - 1, u)]
  }

  lemma {:induction false} StoreHas(es: seq<Entry>, n: nat, u: nat)
    requires n <= |es| && ValidEntries(es)
    ensures forall i :: 0 <= i < n ==> es[i].id in StoreAt(es, n, u) && StoreAt(es, n, u)[es[i].id] == CellsAt(es, i, u)
    ensures forall id :: id in StoreAt(es, n, u) ==> exists i :: 0 <= i < n && id == es[i].id
    decreases n
  {
    if n > 0 { StoreHas(es, n - 1, u); }
  }

  lemma {:induction false} CompletedAlready(es: seq<Entry>, n: nat, u: nat)
    requires n <= u && n <= |es|
    ensures StoreAt(es, n, u) == StoreAt(es, n, u + 1)
    decreases n
  {
    if n > 0 { CompletedAlready(es, n - 1, u); }
  }

  lemma SetBoth(store: Store, a: Id, x: Cells, b: Id, y: Cells)
    requires a != b
    ensures store[a := x][b := y] == store[b := y][a := x]
  {
  }

  lemma {:induction false} CompleteOne(es: seq<Entry>, n: nat, u: nat)
    requires u < n <= |es| && ValidEntries(es)
    ensures StoreAt(es, n, u)[es[u].id := es[u].full] == StoreAt(es, n, u + 1)
    decreases n
  {
    var last := es[n-1];
    if n - 1 == u {
      CompletedAlready(es, u, u);
      var before := StoreAt(es, u, u);
      assert before[last.id := last.early][last.id := last.full] == before[last.id := last.full];
    } else {
      CompleteOne(es, n - 1, u);
      assert es[u].id != last.id;
      SetBoth(StoreAt(es, n - 1, u), last.id, last.early, es[u].id, es[u].full);
    }
  }

  /** One of the first n entries, as it then stands, holds the referenced value. */
  ghost predicate TargetAt(es: seq<Entry>, fk: ForeignKey, v: Value, n: nat, u: nat)
    requires n <= |es|
  {
    exists i :: 0 <= i < n && Holds(es[i].id.table, CellsAt(es, i, u), fk, v)
  }

  ghost predicate Holds(table: string, cells: Cells, fk: ForeignKey, v: Value) {
    table == fk.parentTable && fk.parentColumn in cells && cells[fk.parentColumn] == v
  }

  lemma RefersIffTarget(es: seq<Entry>, fk: ForeignKey, v: Value, n: nat, u: nat)
    requires n <= |es| && ValidEntries(es)
    ensures Refers(StoreAt(es, n, u), fk, v) <==> TargetAt(es, fk, v, n, u)
  {
    StoreHas(es, n, u);
    hide StoreAt;
    var store := StoreAt(es, n, u);
    if Refers(store, fk, v) {
      var id :| id in store && id.table == fk.parentTable && fk.parentColumn in store[id] && store[id][fk.parentColumn] == v;
      var i :| 0 <= i < n && id == es[i].id;
      assert Holds(es[i].id.table, CellsAt(es, i, u), fk, v);
    }
    if TargetAt(es, fk, v, n, u) {
      var i :| 0 <= i < n && Holds(es[i].id.table, CellsAt(es, i, u), fk, v);
      assert es[i].id in store;
    }
  }

  /** The given cells of an entry find all their targets. */
  ghost predicate Finds(schema: Schema, es: seq<Entry>, table: string, cells: Cells, n: nat, u: nat)
    requires n <= |es|
  {
    table in schema ==> forall fk :: fk in schema[table].foreignKeys && fk.column in cells ==> TargetAt(es, fk, cells[fk.column], n, u)
  }

  /** Targets persist while entries are added and completed. */
  lemma FindsPersists(schema: Schema, es: seq<Entry>, table: string, cells: Cells, n: nat, u: nat, n': nat, u': nat)
    requires ValidEntries(es) && n <= n' <= |es| && u <= u' && Finds(schema, es, table, cells, n, u)
    ensures Finds(schema, es, table, cells, n', u')
  {
    if table in schema {
      forall fk | fk in schema[table].foreignKeys && fk.column in cells ensures TargetAt(es, fk, cells[fk.column], n', u') {
        assert TargetAt(es, fk, cells[fk.column], n, u);
        var i :| 0 <= i < n && Holds(es[i].id.table, CellsAt(es, i, u), fk, cells[fk.column]);
        assert Holds(es[i].id.table, CellsAt(es, i, u'), fk, cells[fk.column]);
      }
    }
  }

  lemma ConsistentIff(schema: Schema, es: seq<Entry>, n: nat, u: nat)
    requires ValidEntries(es) && n <= |es|
    ensures Consistent(schema, StoreAt(es, n, u)) <==> forall i :: 0 <= i < n ==> Finds(schema, es, es[i].id.table, CellsAt(es, i, u), n, u)
  {
    StoreHas(es, n, u);
    hide StoreAt, ValidEntries;
    var store := StoreAt(es, n, u);
    forall fk, v { RefersIffTarget(es, fk, v, n, u); }
    if Consistent(schema, store) {
      forall i | 0 <= i < n ensures Finds(schema, es, es[i].id.table, CellsAt(es, i, u), n, u) {
        assert RowRefers(schema, store, es[i].id.table, store[es[i].id]);
      }
    }
    if forall i :: 0 <= i < n ==> Finds(schema, es, es[i].id.table, CellsAt(es, i, u), n, u) {
      forall id | id in store ensures RowRefers(schema, store, id.table, store[id]) {
        var i :| 0 <= i < n && id == es[i].id;
        assert Finds(schema, es, es[i].id.table, CellsAt(es, i, u), n, u);
      }
    }
  }

  /** Entry k, as first inserted, refers only to itself or earlier entries. */
  ghost predicate InsertOk(schema: Schema, es: seq<Entry>, k: nat)
    requires k < |es|
  {
    Finds(schema, es, es[k].id.table, es[k].early, k + 1, 0)
  }

  /** Entry m, when completed, refers only to entries. */
  ghost predicate UpdateOk(schema: Schema, es: seq<Entry>, m: nat)
    requires m < |es|
  {
    Finds(schema, es, es[m].id.table, es[m].full, |es|, m + 1)
  }

  lemma InsertConsistentIff(schema: Schema, es: seq<Entry>, k: nat)
    requires ValidEntries(es) && k < |es| && Consistent(schema, StoreAt(es, k, 0))
    ensures Consistent(schema, StoreAt(es, k + 1, 0)) <==> InsertOk(schema, es, k)
  {
    hide StoreAt, ValidEntries, Consistent, Finds;
    ConsistentIff(schema, es, k, 0);
    ConsistentIff(schema, es, k + 1, 0);
    forall i {:trigger es[i]} | 0 <= i < k ensures Finds(schema, es, es[i].id.table, CellsAt(es, i, 0), k + 1, 0) {
      assert Finds(schema, es, es[i].id.table, CellsAt(es, i, 0), k, 0);
      FindsPersists(schema, es, es[i].id.table, CellsAt(es, i, 0), k, 0, k + 1, 0);
    }
    assert CellsAt(es, k, 0) == es[k].early;
  }

  lemma UpdateConsistentIff(schema: Schema, es: seq<Entry>, m: nat)
    requires ValidEntries(es) && m < |es| && Consistent(schema, StoreAt(es, |es|, m))
    ensures Consistent(schema, StoreAt(es, |es|, m + 1)) <==> UpdateOk(schema, es, m)
  {
    hide StoreAt, ValidEntries, Consistent, Finds;
    var n := |es|;
    ConsistentIff(schema, es, n, m);
    ConsistentIff(schema, es, n, m + 1);
    forall i {:trigger es[i]} | 0 <= i < n && i != m ensures Finds(schema, es, es[i].id.table, CellsAt(es, i, m + 1), n, m + 1) {
      assert Finds(schema, es, es[i].id.table, CellsAt(es, i, m), n, m);
      assert CellsAt(es, i, m) == CellsAt(es, i, m + 1);
      FindsPersists(schema, es, es[i].id.table, CellsAt(es, i, m), n, m, n, m + 1);
    }
    assert CellsAt(es, m, m + 1) == es[m].full;
  }

  // ----- Running block by block -----

  lemma {:induction false} RunAppend(schema: Schema, store: Store, a: seq<Statement>, b: seq<Statement>)
    requires Known(schema, a) && Known(schema, b)
    ensures Known(schema, a + b)
    ensures Run(schema, store, a + b) ==
            (var r := Run(schema, store, a); if r.Rejected? then Rejected else Run(schema, r.store, b))
    decreases |a|
  {
    if a == [] {
      assert a + b == b;
    } else {
      assert (a + b)[1..] == a[1..] + b;
      var r := Exec(schema, store, a[0]);
      if r.Ok? { RunAppend(schema, r.store, a[1..], b); }
    }
  }

  /** Block k takes a consistent stage k to stage k + 1 exactly when ok[k]. */
  ghost predicate Stages(schema: Schema, blocks: seq<seq<Statement>>, stages: seq<Store>, ok: seq<bool>) {
    && |stages| == |blocks| + 1 && |ok| == |blocks|
    && forall k :: 0 <= k < |blocks| ==> BlockStep(schema, stages[k], blocks[k], ok[k], stages[k+1])
  }

  ghost predicate BlockStep(schema: Schema, store: Store, block: seq<Statement>, ok: bool, next: Store) {
    && Known(schema, block)
    && (Consistent(schema, store) ==>
          Run(schema, store, block) == (if ok then Ok(next) else Rejected) && (ok ==> Consistent(schema, next)))
  }

  lemma {:induction false} RunStages(schema: Schema, blocks: seq<seq<Statement>>, stages: seq<Store>, ok: seq<bool>, k: nat)
    requires Stages(schema, blocks, stages, ok) && Consistent(schema, stages[0]) && k <= |blocks|
    ensures Known(schema, Concat(blocks[..k]))
    ensures Run(schema, stages[0], Concat(blocks[..k])) == if forall j :: 0 <= j < k ==> ok[j] then Ok(stages[k]) else Rejected
    ensures (forall j :: 0 <= j < k ==> ok[j]) ==> Consistent(schema, stages[k])
    decreases k
  {
    if k == 0 {
      assert blocks[..0] == [] && Concat(blocks[..0]) == [];
    } else {
      hide Consistent, Run, Concat, Known;
      RunStages(schema, blocks, stages, ok, k - 1);
      assert blocks[..k] == blocks[..k-1] + [blocks[k-1]];
      ConcatSnoc(blocks[..k-1], blocks[k-1]);
      assert BlockStep(schema, stages[k-1], blocks[k-1], ok[k-1], stages[k]);
      RunAppend(schema, stages[0], Concat(blocks[..k-1]), blocks[k-1]);
    }
  }

  // ----- Rows as entries -----

  ghost predicate ValidRow(schema: Schema, d: Deferral, row: Row) {
    && row.table in schema
    && (forall c :: c in row.cells ==> c in schema[row.table].columns)
    && (forall c :: c in schema[row.table].primaryKey ==> c in row.cells && c !in DeferredOf(d, row.table))
  }

  function EntryOf(schema: Schema, d: Deferral, row: Row): Entry
    requires row.table in schema
  {
    Entry(Id(row.table, KeyOf(schema[row.table], row.cells)), Only(row.cells, Listed(schema, d, row.table)), row.cells)
  }

  function Entries(schema: Schema, d: Deferral, rows: seq<Row>): (es: seq<Entry>)
    requires KnownRows(schema, rows)
    ensures |es| == |rows| && forall i :: 0 <= i < |rows| ==> es[i] == EntryOf(schema, d, rows[i])
  {
    seq(|rows|, i requires 0 <= i < |rows| => EntryOf(schema, d, rows[i]))
  }

  /** Rows of a database, in the order they are written: cells lie in known columns, primary
      keys are set and never deferred, and no two rows share one. */
  ghost predicate ValidRows(schema: Schema, d: Deferral, rows: seq<Row>) {
    && KnownRows(schema, rows)
    && (forall row :: row in rows ==> ValidRow(schema, d, row))
    && ValidEntries(Entries(schema, d, rows))
  }

  lemma EntryParts(schema: Schema, d: Deferral, row: Row)
    requires ValidRow(schema, d, row)
    ensures var e := EntryOf(schema, d, row);
            && Sub(e.early, row.cells)
            && (forall c :: c in row.cells ==> c in e.early || c in Present(d, row))
            && (forall c :: c in Present(d, row) ==> c in row.cells && c !in e.early)
            && KeyOf(schema[row.table], e.early) == KeyOf(schema[row.table], row.cells)
  {
    var table, early := schema[row.table], EntryOf(schema, d, row).early;
    forall c | c in table.primaryKey ensures c in early && early[c] == row.cells[c] {
      assert c in row.cells && c in table.columns;
    }
  }

  lemma RunOne(schema: Schema, store: Store, s: Statement)
    requires s.table in schema
    ensures Run(schema, store, [s]) == Exec(schema, store, s)
  {
    assert [s][1..] == [];
  }

  lemma InsertEffect(schema: Schema, d: Deferral, row: Row, store: Store)
    requires ValidRow(schema, d, row) && EntryOf(schema, d, row).id !in store
    ensures Effect(schema, store, InsertOf(schema, d, row)) == Ok(store[EntryOf(schema, d, row).id := EntryOf(schema, d, row).early])
  {
    EntryParts(schema, d, row);
    var early := EntryOf(schema, d, row).early;
    assert Only(early, Listed(schema, d, row.table)) == early;
  }

  lemma InsertStep(schema: Schema, d: Deferral, row: Row, es: seq<Entry>, k: nat)
    requires ValidRow(schema, d, row) && ValidEntries(es) && k < |es| && es[k] == EntryOf(schema, d, row)
    ensures BlockStep(schema, StoreAt(es, k, 0), [InsertOf(schema, d, row)], InsertOk(schema, es, k), StoreAt(es, k + 1, 0))
  {
    var store := StoreAt(es, k, 0);
    StoreHas(es, k, 0);
    assert es[k].id !in store;
    hide Consistent, ValidEntries, Effect, Entries, KeyOf, Listed, Only;
    InsertEffect(schema, d, row, store);
    RunOne(schema, store, InsertOf(schema, d, row));
    if Consistent(schema, store) {
      InsertConsistentIff(schema, es, k);
    }
  }

  lemma UpdateEffect(schema: Schema, d: Deferral, row: Row, store: Store)
    requires ValidRow(schema, d, row) && Distinct(Present(d, row))
    requires var e := EntryOf(schema, d, row); e.id in store && (store[e.id] == e.early || store[e.id] == e.full)
    ensures Effect(schema, store, UpdateOf(schema, d, row)) == Ok(store[EntryOf(schema, d, row).id := row.cells])
  {
    EntryParts(schema, d, row);
    var e, present := EntryOf(schema, d, row), Present(d, row);
    CompletesCells(store[e.id], row.cells, present);
  }

  lemma CompletesCells(cells: Cells, full: Cells, present: seq<string>)
    requires Sub(cells, full)
    requires forall c :: c in full ==> c in cells || c in present
    ensures Without(cells, present) + Only(Only(full, present), present) == full
  {
  }

  /** Completing entry m from row `row` assigns no column twice and leaves it with targets only. */
  ghost predicate CompletionOk(schema: Schema, d: Deferral, row: Row, es: seq<Entry>, m: nat)
    requires m < |es|
  {
    Distinct(Present(d, row)) && UpdateOk(schema, es, m)
  }

  lemma NothingToComplete(schema: Schema, d: Deferral, row: Row, es: seq<Entry>, m: nat)
    requires ValidRow(schema, d, row) && ValidEntries(es) && m < |es| && es[m] == EntryOf(schema, d, row)
    requires Present(d, row) == []
    ensures StoreAt(es, |es|, m + 1) == StoreAt(es, |es|, m)
  {
    EntryParts(schema, d, row);
    assert es[m].early == row.cells;
    StoreHas(es, |es|, m);
    CompleteOne(es, |es|, m);
    hide StoreAt, ValidEntries, Present, EntryOf;
    var store := StoreAt(es, |es|, m);
    assert store[es[m].id := store[es[m].id]] == store;
  }

  lemma RunNone(schema: Schema, store: Store)
    ensures Known(schema, []) && Run(schema, store, []) == Ok(store)
  {
  }

  lemma NoUpdateStep(schema: Schema, d: Deferral, row: Row, es: seq<Entry>, m: nat)
    requires ValidRow(schema, d, row) && ValidEntries(es) && m < |es| && es[m] == EntryOf(schema, d, row)
    requires Present(d, row) == []
    ensures BlockStep(schema, StoreAt(es, |es|, m), [], CompletionOk(schema, d, row, es, m), StoreAt(es, |es|, m + 1))
  {
    NothingToComplete(schema, d, row, es, m);
    RunNone(schema, StoreAt(es, |es|, m));
    hide Consistent, ValidEntries, StoreAt, Run, UpdateOk, ValidRow, EntryOf;
    if Consistent(schema, StoreAt(es, |es|, m)) { UpdateConsistentIff(schema, es, m); }
  }

  lemma UpdateCompletes(schema: Schema, d: Deferral, row: Row, es: seq<Entry>, m: nat)
    requires ValidRow(schema, d, row) && ValidEntries(es) && m < |es| && es[m] == EntryOf(schema, d, row)
    ensures Effect(schema, StoreAt(es, |es|, m), UpdateOf(schema, d, row))
         == if Distinct(Present(d, row)) then Ok(StoreAt(es, |es|, m + 1)) else Rejected
  {
    var store := StoreAt(es, |es|, m);
    StoreHas(es, |es|, m);
    CompleteOne(es, |es|, m);
    hide ValidEntries, StoreAt, Filter;
    if Distinct(Present(d, row)) {
      hide Effect, KeyOf, Only, Present;
      UpdateEffect(schema, d, row, store);
    } else {
      hide KeyOf, Only, Without;
    }
  }

  lemma UpdateRun(schema: Schema, d: Deferral, row: Row, es: seq<Entry>, m: nat)
    requires ValidRow(schema, d, row) && ValidEntries(es) && m < |es| && es[m] == EntryOf(schema, d, row)
    ensures Known(schema, [UpdateOf(schema, d, row)])
    ensures var next := StoreAt(es, |es|, m + 1);
            Run(schema, StoreAt(es, |es|, m), [UpdateOf(schema, d, row)])
              == if Distinct(Present(d, row)) && Consistent(schema, next) then Ok(next) else Rejected
  {
    var store, update := StoreAt(es, |es|, m), UpdateOf(schema, d, row);
    assert update.table == row.table && row.table in schema;
    UpdateCompletes(schema, d, row, es, m);
    hide Consistent, ValidEntries, StoreAt, Effect, Run, Present, UpdateOf, ValidRow, EntryOf, Distinct;
    RunOne(schema, store, update);
  }

  lemma OneUpdateStep(schema: Schema, d: Deferral, row: Row, es: seq<Entry>, m: nat)
    requires ValidRow(schema, d, row) && ValidEntries(es) && m < |es| && es[m] == EntryOf(schema, d, row)
    ensures BlockStep(schema, StoreAt(es, |es|, m), [UpdateOf(schema, d, row)], CompletionOk(schema, d, row, es, m), StoreAt(es, |es|, m + 1))
  {
    hide Consistent, ValidEntries, StoreAt, Run, Known, UpdateOk, Present, UpdateOf, ValidRow, EntryOf, Distinct;
    UpdateRun(schema, d, row, es, m);
    if Consistent(schema, StoreAt(es, |es|, m)) { UpdateConsistentIff(schema, es, m); }
  }

  lemma UpdateStep(schema: Schema, d: Deferral, row: Row, es: seq<Entry>, m: nat)
    requires ValidRow(schema, d, row) && ValidEntries(es) && m < |es| && es[m] == EntryOf(schema, d, row)
    ensures BlockStep(schema, StoreAt(es, |es|, m), UpdateBlock(schema, d, row), CompletionOk(schema, d, row, es, m), StoreAt(es, |es|, m + 1))
  {
    hide BlockStep, CompletionOk, StoreAt, ValidEntries;
    if Present(d, row) == [] {
      NoUpdateStep(schema, d, row, es, m);
    } else {
      OneUpdateStep(schema, d, row, es, m);
    }
  }

  // ----- The whole script -----

  ghost function InsertStages(es: seq<Entry>): (r: seq<Store>)
    ensures |r| == |es| + 1 && forall k :: 0 <= k <= |es| ==> r[k] == StoreAt(es, k, 0)
  {
    seq(|es| + 1, k requires 0 <= k <= |es| => StoreAt(es, k, 0))
  }

  ghost function UpdateStages(es: seq<Entry>): (r: seq<Store>)
    ensures |r| == |es| + 1 && forall k :: 0 <= k <= |es| ==> r[k] == StoreAt(es, |es|, k)
  {
    seq(|es| + 1, k requires 0 <= k <= |es| => StoreAt(es, |es|, k))
  }

  ghost predicate AllInsertOk(schema: Schema, es: seq<Entry>) {
    forall j :: 0 <= j < |es| ==> InsertOk(schema, es, j)
  }

  ghost predicate AllCompletionOk(schema: Schema, d: Deferral, rows: seq<Row>, es: seq<Entry>)
    requires |rows| == |es|
  {
    forall j :: 0 <= j < |es| ==> CompletionOk(schema, d, rows[j], es, j)
  }

  ghost function InsertOks(schema: Schema, es: seq<Entry>): (r: seq<bool>)
    ensures |r| == |es| && forall k :: 0 <= k < |es| ==> r[k] == InsertOk(schema, es, k)
    ensures (forall k :: 0 <= k < |es| ==> r[k]) <==> AllInsertOk(schema, es)
  {
    seq(|es|, k requires 0 <= k < |es| => InsertOk(schema, es, k))
  }

  ghost function CompletionOks(schema: Schema, d: Deferral, rows: seq<Row>, es: seq<Entry>): (r: seq<bool>)
    requires |rows| == |es|
    ensures |r| == |es| && forall k :: 0 <= k < |es| ==> r[k] == CompletionOk(schema, d, rows[k], es, k)
    ensures (forall k :: 0 <= k < |es| ==> r[k]) <==> AllCompletionOk(schema, d, rows, es)
  {
    seq(|es|, k requires 0 <= k < |es| => CompletionOk(schema, d, rows[k], es, k))
  }

  /** Each row refers, outside its deferred columns, to itself or to rows written before it, and
      altogether only to rows of the script; no update assigns a column twice. */
  ghost predicate Loadable(schema: Schema, d: Deferral, rows: seq<Row>)
    requires KnownRows(schema, rows)
  {
    var es := Entries(schema, d, rows);
    AllInsertOk(schema, es) && AllCompletionOk(schema, d, rows, es)
  }

  /** The exported rows, complete. */
  ghost function Exported(schema: Schema, d: Deferral, rows: seq<Row>): Store
    requires KnownRows(schema, rows)
  {
    StoreAt(Entries(schema, d, rows), |rows|, |rows|)
  }

  lemma EmptyStage(schema: Schema, es: seq<Entry>)
    ensures StoreAt(es, 0, 0) == map[] && Consistent(schema, map[])
  {
  }

  lemma RunInserts(schema: Schema, d: Deferral, rows: seq<Row>, es: seq<Entry>)
    requires ValidRows(schema, d, rows) && es == Entries(schema, d, rows)
    ensures Known(schema, Concat(InsertBlocks(schema, d, rows)))
    ensures Run(schema, map[], Concat(InsertBlocks(schema, d, rows)))
         == if AllInsertOk(schema, es) then Ok(StoreAt(es, |es|, 0)) else Rejected
    ensures AllInsertOk(schema, es) ==> Consistent(schema, StoreAt(es, |es|, 0))
  {
    EmptyStage(schema, es);
    hide Consistent, ValidEntries, ValidRow, InsertOf, EntryOf, InsertOk, AllInsertOk, Run, StoreAt, Concat, BlockStep, InsertStages, InsertBlocks, InsertOks, Entries, Known;
    var n, blocks, stages, ok := |rows|, InsertBlocks(schema, d, rows), InsertStages(es), InsertOks(schema, es);
    forall k | 0 <= k < n ensures BlockStep(schema, stages[k], blocks[k], ok[k], stages[k+1]) {
      assert rows[k] in rows;
      InsertStep(schema, d, rows[k], es, k);
    }
    assert blocks[..n] == blocks;
    RunStages(schema, blocks, stages, ok, n);
  }

  lemma RunUpdates(schema: Schema, d: Deferral, rows: seq<Row>, es: seq<Entry>)
    requires ValidRows(schema, d, rows) && es == Entries(schema, d, rows) && Consistent(schema, StoreAt(es, |es|, 0))
    ensures Known(schema, Concat(UpdateBlocks(schema, d, rows)))
    ensures Run(schema, StoreAt(es, |es|, 0), Concat(UpdateBlocks(schema, d, rows)))
         == if AllCompletionOk(schema, d, rows, es) then Ok(StoreAt(es, |es|, |es|)) else Rejected
    ensures AllCompletionOk(schema, d, rows, es) ==> Consistent(schema, StoreAt(es, |es|, |es|))
  {
    hide Consistent, ValidEntries, ValidRow, UpdateBlock, EntryOf, CompletionOk, AllCompletionOk, Run, StoreAt, Concat, BlockStep, UpdateStages, UpdateBlocks, CompletionOks, Entries, Known;
    var n, blocks, stages, ok := |rows|, UpdateBlocks(schema, d, rows), UpdateStages(es), CompletionOks(schema, d, rows, es);
    forall k | 0 <= k < n ensures BlockStep(schema, stages[k], blocks[k], ok[k], stages[k+1]) {
      assert rows[k] in rows;
      UpdateStep(schema, d, rows[k], es, k);
    }
    assert blocks[..n] == blocks;
    RunStages(schema, blocks, stages, ok, n);
  }

  /** Run on empty tables, the script succeeds exactly when it is loadable, keeping every
      foreign key after every statement, and then leaves exactly the exported rows. */
  lemma ScriptLoadsExactly(schema: Schema, d: Deferral, rows: seq<Row>)
    requires ValidRows(schema, d, rows)
    ensures Run(schema, map[], Script(schema, d, rows))
         == if Loadable(schema, d, rows) then Ok(Exported(schema, d, rows)) else Rejected
    ensures Loadable(schema, d, rows) ==> Consistent(schema, Exported(schema, d, rows))
  {
    hide Consistent, ValidEntries, AllInsertOk, AllCompletionOk, Run, StoreAt, Concat, Known;
    var es := Entries(schema, d, rows);
    RunInserts(schema, d, rows, es);
    var updates := Concat(UpdateBlocks(schema, d, rows));
    if AllInsertOk(schema, es) {
      RunUpdates(schema, d, rows, es);
    }
    UpdatesKnown(schema, d, rows);
    RunAppend(schema, map[], Concat(InsertBlocks(schema, d, rows)), updates);
  }

  lemma UpdatesKnown(schema: Schema, d: Deferral, rows: seq<Row>)
    requires KnownRows(schema, rows)
    ensures Known(schema, Concat(UpdateBlocks(schema, d, rows)))
  {
  }

  // ----- Running it again -----

  /** Overwriting the listed columns outside the key with their own values changes nothing. */
  lemma OverwriteSame(cells: Cells, early: Cells, updatable: seq<string>)
    requires Sub(early, cells) && forall c :: c in cells && c in updatable ==> c in early
    ensures Without(cells, updatable) + Only(early, updatable) == cells
  {
  }

  lemma ReinsertEffect(schema: Schema, d: Deferral, row: Row, store: Store)
    requires ValidRow(schema, d, row)
    requires EntryOf(schema, d, row).id in store && store[EntryOf(schema, d, row).id] == row.cells
    ensures Effect(schema, store, InsertOf(schema, d, row)) == Ok(store)
  {
    EntryParts(schema, d, row);
    var id, early, listed := EntryOf(schema, d, row).id, EntryOf(schema, d, row).early, Listed(schema, d, row.table);
    var updatable := Filter(listed, c => c !in schema[row.table].primaryKey);
    OverwriteSame(row.cells, early, updatable);
    assert id == Id(row.table, KeyOf(schema[row.table], early));
    hide Without, Filter, KeyOf, ValidRow, Listed;
    assert store[id := row.cells] == store;
  }

  lemma {:induction false} RunKeeps(schema: Schema, store: Store, script: seq<Statement>)
    requires Known(schema, script) && Consistent(schema, store)
    requires forall s :: s in script ==> Effect(schema, store, s) == Ok(store)
    ensures Run(schema, store, script) == Ok(store)
    decreases |script|
  {
    if script != [] {
      assert script[0] in script;
      RunKeeps(schema, store, script[1..]);
    }
  }

  lemma RowStatementsKeep(schema: Schema, d: Deferral, row: Row, store: Store, s: Statement)
    requires ValidRow(schema, d, row) && Distinct(Present(d, row))
    requires EntryOf(schema, d, row).id in store && store[EntryOf(schema, d, row).id] == row.cells
    requires s == InsertOf(schema, d, row) || s == UpdateOf(schema, d, row)
    ensures Effect(schema, store, s) == Ok(store)
  {
    if s == InsertOf(schema, d, row) {
      ReinsertEffect(schema, d, row, store);
    } else {
      UpdateEffect(schema, d, row, store);
      assert store[EntryOf(schema, d, row).id := row.cells] == store;
    }
  }

  lemma StatementOfRow(schema: Schema, d: Deferral, rows: seq<Row>, s: Statement) returns (i: nat)
    requires KnownRows(schema, rows) && s in Script(schema, d, rows)
    ensures i < |rows| && rows[i] in rows && (s == InsertOf(schema, d, rows[i]) || s == UpdateOf(schema, d, rows[i]))
  {
    hide InsertOf, UpdateOf, Present;
    var inserts, updates := InsertBlocks(schema, d, rows), UpdateBlocks(schema, d, rows);
    i :| 0 <= i < |rows| && (s in inserts[i] || s in updates[i]);
  }

  lemma ExportedRow(schema: Schema, d: Deferral, rows: seq<Row>, i: nat)
    requires ValidRows(schema, d, rows) && Loadable(schema, d, rows) && i < |rows|
    ensures ValidRow(schema, d, rows[i]) && Distinct(Present(d, rows[i]))
    ensures var id := EntryOf(schema, d, rows[i]).id;
            id in Exported(schema, d, rows) && Exported(schema, d, rows)[id] == rows[i].cells
  {
    var es := Entries(schema, d, rows);
    StoreHas(es, |es|, |es|);
    assert rows[i] in rows;
    hide StoreAt, ValidEntries, ValidRow, InsertOk, UpdateOk, Distinct, Present;
    assert CompletionOk(schema, d, rows[i], es, i) && es[i] == EntryOf(schema, d, rows[i]);
  }

  /** A loadable script is idempotent: run on what it left behind, it changes nothing. */
  lemma ScriptIsIdempotent(schema: Schema, d: Deferral, rows: seq<Row>)
    requires ValidRows(schema, d, rows) && Loadable(schema, d, rows)
    ensures Run(schema, Exported(schema, d, rows), Script(schema, d, rows)) == Ok(Exported(schema, d, rows))
  {
    var store, script := Exported(schema, d, rows), Script(schema, d, rows);
    ScriptLoadsExactly(schema, d, rows);
    assert KnownRows(schema, rows);
    hide Consistent, ValidRows, Loadable, Run, Exported, Effect, ValidRow, InsertOf, UpdateOf, Present, Script, EntryOf;
    forall s | s in script ensures Effect(schema, store, s) == Ok(store) {
      var i := StatementOfRow(schema, d, rows, s);
      ExportedRow(schema, d, rows, i);
      RowStatementsKeep(schema, d, rows[i], store, s);
    }
    RunKeeps(schema, store, script);
  }

  // ----- The script as `export` writes it -----

  /** `position`: where each exported table stands in the file. */
  ghost predicate Positions(tables: seq<string>, position: map<string, nat>) {
    && Distinct(tables)
    && (forall name :: name in position <==> name in tables)
    && forall i :: 0 <= i < |tables| ==> position[tables[i]] == i
  }

  /** The foreign key of a nullable column to a later table. */
  predicate LeadsLater(fk: ForeignKey, c: string, nullable: set<string>, position: map<string, nat>, own: nat) {
    fk.column == c && c in nullable && fk.parentTable in position && position[fk.parentTable] > own
  }

  ghost predicate SomeLeadsLater(foreignKeys: seq<ForeignKey>, c: string, nullable: set<string>, position: map<string, nat>, own: nat) {
    exists fk :: fk in foreignKeys && LeadsLater(fk, c, nullable, position, own)
  }

  lemma FirstLeadsLater(foreignKeys: seq<ForeignKey>, c: string, nullable: set<string>, position: map<string, nat>, own: nat)
    requires foreignKeys != []
    ensures SomeLeadsLater(foreignKeys, c, nullable, position, own) <==>
      LeadsLater(foreignKeys[0], c, nullable, position, own) || SomeLeadsLater(foreignKeys[1..], c, nullable, position, own)
  {
    hide LeadsLater;
    assert foreignKeys == [foreignKeys[0]] + foreignKeys[1..];
  }

  /** `_deferred_columns`: nullable columns with a foreign key to a later table, once per such key. */
  function DeferredColumns(foreignKeys: seq<ForeignKey>, nullable: set<string>, position: map<string, nat>, own: nat): (r: seq<string>)
    ensures forall c :: c in r <==> SomeLeadsLater(foreignKeys, c, nullable, position, own)
  {
    if foreignKeys == [] then []
    else
      var fk := foreignKeys[0];
      assert forall c :: SomeLeadsLater(foreignKeys, c, nullable, position, own) <==>
          LeadsLater(fk, c, nullable, position, own) || SomeLeadsLater(foreignKeys[1..], c, nullable, position, own) by {
        forall c { FirstLeadsLater(foreignKeys, c, nullable, position, own); }
      }
      (if fk.parentTable in position && position[fk.parentTable] > own && fk.column in nullable then [fk.column] else [])
      + DeferredColumns(foreignKeys[1..], nullable, position, own)
  }

  predicate AnySet(rows: seq<Row>, column: string) { exists row :: row in rows && column in row.cells }

  type RowsByTable = map<string, seq<Row>>

  function RowsOf(rowsByTable: RowsByTable, name: string): seq<Row> { if name in rowsByTable then rowsByTable[name] else [] }

  /** The deferred columns of one table that some exported row sets. */
  function DeferredIn(schema: Schema, position: map<string, nat>, rowsByTable: RowsByTable, name: string): seq<string>
    requires name in schema && name in position
  {
    Filter(DeferredColumns(schema[name].foreignKeys, schema[name].nullable, position, position[name]),
           c => AnySet(RowsOf(rowsByTable, name), c))
  }

  function DeferralOf(schema: Schema, position: map<string, nat>, rowsByTable: RowsByTable): Deferral {
    map name | name in position && name in schema :: DeferredIn(schema, position, rowsByTable, name)
  }

  /** The exported rows in the order of the file. */
  function AllRows(tables: seq<string>, rowsByTable: RowsByTable): seq<Row> {
    if tables == [] then [] else AllRows(tables[..|tables|-1], rowsByTable) + RowsOf(rowsByTable, tables[|tables|-1])
  }

  ghost predicate Tabled(schema: Schema, tables: seq<string>, rowsByTable: RowsByTable) {
    && (forall name :: name in tables ==> name in schema)
    && (forall name, row :: name in rowsByTable && row in rowsByTable[name] ==> row.table == name)
  }

  lemma {:induction false} AllRowsKnown(schema: Schema, tables: seq<string>, rowsByTable: RowsByTable)
    requires Tabled(schema, tables, rowsByTable)
    ensures KnownRows(schema, AllRows(tables, rowsByTable))
    ensures forall row :: row in AllRows(tables, rowsByTable) ==> row.table in tables
    decreases |tables|
  {
    if tables != [] {
      AllRowsKnown(schema, tables[..|tables|-1], rowsByTable);
      assert tables[|tables|-1] in tables;
    }
  }

  lemma BlocksSnoc(schema: Schema, d: Deferral, rows: seq<Row>, row: Row)
    requires KnownRows(schema, rows) && row.table in schema
    ensures KnownRows(schema, rows + [row])
    ensures Concat(InsertBlocks(schema, d, rows + [row])) == Concat(InsertBlocks(schema, d, rows)) + [InsertOf(schema, d, row)]
    ensures Concat(UpdateBlocks(schema, d, rows + [row])) == Concat(UpdateBlocks(schema, d, rows)) + UpdateBlock(schema, d, row)
  {
    hide Concat, InsertOf, UpdateBlock;
    assert InsertBlocks(schema, d, rows + [row]) == InsertBlocks(schema, d, rows) + [[InsertOf(schema, d, row)]];
    assert UpdateBlocks(schema, d, rows + [row]) == UpdateBlocks(schema, d, rows) + [UpdateBlock(schema, d, row)];
    ConcatSnoc(InsertBlocks(schema, d, rows), [InsertOf(schema, d, row)]);
    ConcatSnoc(UpdateBlocks(schema, d, rows), UpdateBlock(schema, d, row));
  }

  /** The second half of `export`: sections of inserts, and the updates gathered on the way. */
  method BuildScript(schema: Schema, tables: seq<string>, rowsByTable: RowsByTable, position: map<string, nat>)
    returns (script: seq<Statement>)
    requires Tabled(schema, tables, rowsByTable) && Positions(tables, position)
    ensures KnownRows(schema, AllRows(tables, rowsByTable))
    ensures script == Script(schema, DeferralOf(schema, position, rowsByTable), AllRows(tables, rowsByTable))
  {
    ghost var d := DeferralOf(schema, position, rowsByTable);
    EmptyBlocks(schema, d);
    hide Concat, DeferredIn, InsertBlocks, UpdateBlocks, DeferralOf, DeferredOf, AllRows, Tabled, Positions, RowsOf, KnownRows;
    NoRows(schema, rowsByTable);
    assert tables[..0] == [];
    ghost var written: seq<Row> := [];
    var sections, deferredUpdates: seq<Statement> := [], [];
    for i := 0 to |tables|
      invariant written == AllRows(tables[..i], rowsByTable) && KnownRows(schema, written)
      invariant sections == Concat(InsertBlocks(schema, d, written)) && deferredUpdates == Concat(UpdateBlocks(schema, d, written))
    {
      var name := tables[i];
      OneTable(schema, tables, rowsByTable, position, i);
      var rows, deferred := RowsOf(rowsByTable, name), DeferredIn(schema, position, rowsByTable, name);
      var inserts, updates := WriteRows(schema, name, deferred, d, rows);
      BlocksConcat(schema, d, written, rows);
      sections, deferredUpdates := sections + inserts, deferredUpdates + updates;
      written := written + rows;
    }
    assert tables[..|tables|] == tables;
    script := sections + deferredUpdates;
  }

  lemma NoRows(schema: Schema, rowsByTable: RowsByTable)
    ensures AllRows([], rowsByTable) == [] && KnownRows(schema, [])
  {
  }

  lemma OneTable(schema: Schema, tables: seq<string>, rowsByTable: RowsByTable, position: map<string, nat>, i: nat)
    requires Tabled(schema, tables, rowsByTable) && Positions(tables, position) && i < |tables|
    ensures tables[i] in schema && tables[i] in position
    ensures forall row :: row in RowsOf(rowsByTable, tables[i]) ==> row.table == tables[i]
    ensures AllRows(tables[..i+1], rowsByTable) == AllRows(tables[..i], rowsByTable) + RowsOf(rowsByTable, tables[i])
    ensures DeferredOf(DeferralOf(schema, position, rowsByTable), tables[i]) == DeferredIn(schema, position, rowsByTable, tables[i])
  {
    hide DeferredIn;
    assert tables[i] in tables;
    assert tables[..i+1][..i] == tables[..i];
  }

  /** The statements of one table. */
  method WriteRows(schema: Schema, name: string, deferred: seq<string>, ghost d: Deferral, rows: seq<Row>)
    returns (inserts: seq<Statement>, updates: seq<Statement>)
    requires name in schema && deferred == DeferredOf(d, name) && forall row :: row in rows ==> row.table == name
    ensures KnownRows(schema, rows)
    ensures inserts == Concat(InsertBlocks(schema, d, rows)) && updates == Concat(UpdateBlocks(schema, d, rows))
  {
    EmptyBlocks(schema, d);
    hide Concat, InsertOf, UpdateBlock, InsertBlocks, UpdateBlocks, DeferredOf;
    inserts, updates := [], [];
    assert rows[..0] == [];
    for j := 0 to |rows|
      invariant KnownRows(schema, rows[..j])
      invariant inserts == Concat(InsertBlocks(schema, d, rows[..j])) && updates == Concat(UpdateBlocks(schema, d, rows[..j]))
    {
      assert rows[j] in rows && rows[..j+1] == rows[..j] + [rows[j]];
      BlocksSnoc(schema, d, rows[..j], rows[j]);
      var insert, update := WriteRow(schema, deferred, d, rows[j]);
      inserts, updates := inserts + [insert], updates + update;
    }
    assert rows[..|rows|] == rows;
  }

  lemma {:induction false} BlocksConcat(schema: Schema, d: Deferral, a: seq<Row>, b: seq<Row>)
    requires KnownRows(schema, a) && KnownRows(schema, b)
    ensures KnownRows(schema, a + b)
    ensures Concat(InsertBlocks(schema, d, a + b)) == Concat(InsertBlocks(schema, d, a)) + Concat(InsertBlocks(schema, d, b))
    ensures Concat(UpdateBlocks(schema, d, a + b)) == Concat(UpdateBlocks(schema, d, a)) + Concat(UpdateBlocks(schema, d, b))
    decreases |b|
  {
    EmptyBlocks(schema, d);
    hide Concat, InsertOf, UpdateBlock, InsertBlocks, UpdateBlocks;
    if b == [] {
      assert a + b == a;
    } else {
      var rest, row := b[..|b|-1], b[|b|-1];
      assert b == rest + [row] && row in b && a + b == (a + rest) + [row];
      BlocksConcat(schema, d, a, rest);
      BlocksSnoc(schema, d, a + rest, row);
      BlocksSnoc(schema, d, rest, row);
    }
  }

  lemma EmptyBlocks(schema: Schema, d: Deferral)
    ensures Concat(InsertBlocks(schema, d, [])) == [] && Concat(UpdateBlocks(schema, d, [])) == []
  {
    assert InsertBlocks(schema, d, []) == [] && UpdateBlocks(schema, d, []) == [];
  }

  method WriteRow(schema: Schema, deferred: seq<string>, ghost d: Deferral, row: Row) returns (insert: Statement, update: seq<Statement>)
    requires row.table in schema && deferred == DeferredOf(d, row.table)
    ensures insert == InsertOf(schema, d, row) && update == UpdateBlock(schema, d, row)
  {
    var listed := Filter(schema[row.table].columns, c => c !in deferred);
    insert := Insert(row.table, listed, Only(row.cells, listed));
    FilterSame(schema[row.table].columns, c => c !in deferred, c => c !in DeferredOf(d, row.table));
    var present := Filter(deferred, c => c in row.cells);
    update := if present != [] then [Update(row.table, KeyOf(schema[row.table], row.cells), present, Only(row.cells, present))] else [];
    FilterSame(deferred, c => c in row.cells, c => c in row.cells);
  }

  lemma {:induction false} FilterSame(columns: seq<string>, f: string -> bool, g: string -> bool)
    requires forall c :: f(c) == g(c)
    ensures Filter(columns, f) == Filter(columns, g)
  {
    if columns != [] { FilterSame(columns[1..], f, g); }
  }

  // ----- Loading, in terms of the rows -----

  /** No row refers to a deferred column. */
  ghost predicate KeysStay(schema: Schema, d: Deferral, rows: seq<Row>) {
    forall row, fk :: row in rows && SetsKey(schema, row, fk) ==> fk.parentColumn !in DeferredOf(d, fk.parentTable)
  }

  /** One of the first n rows is what row k refers to. */
  ghost predicate Within(rows: seq<Row>, k: nat, fk: ForeignKey, n: nat)
    requires k < |rows| && n <= |rows|
  {
    exists j :: 0 <= j < n && RefersTo(rows[k], fk, rows[j])
  }

  /** Row k's reference leads to a row of the file; unless its column is deferred, to the row itself or
      to an earlier one. */
  ghost predicate ReferenceOk(d: Deferral, rows: seq<Row>, k: nat, fk: ForeignKey)
    requires k < |rows|
  {
    Within(rows, k, fk, if fk.column in DeferredOf(d, rows[k].table) then |rows| else k + 1)
  }

  ghost predicate RowOk(schema: Schema, d: Deferral, rows: seq<Row>, k: nat)
    requires k < |rows|
  {
    Distinct(Present(d, rows[k])) && forall fk :: SetsKey(schema, rows[k], fk) ==> ReferenceOk(d, rows, k, fk)
  }

  lemma EntryHolds(schema: Schema, d: Deferral, row: Row, fk: ForeignKey, v: Value)
    requires ValidRow(schema, d, row) && fk.parentColumn !in DeferredOf(d, fk.parentTable)
    ensures var e := EntryOf(schema, d, row);
            && (Holds(e.id.table, e.early, fk, v) <==> Holds(row.table, row.cells, fk, v))
            && (Holds(e.id.table, e.full, fk, v) <==> Holds(row.table, row.cells, fk, v))
  {
  }

  lemma TargetIff(schema: Schema, d: Deferral, rows: seq<Row>, es: seq<Entry>, k: nat, fk: ForeignKey, n: nat, u: nat)
    requires ValidRows(schema, d, rows) && es == Entries(schema, d, rows) && k < |rows| && n <= |rows|
    requires fk.column in rows[k].cells && fk.parentColumn !in DeferredOf(d, fk.parentTable)
    ensures TargetAt(es, fk, rows[k].cells[fk.column], n, u) <==> Within(rows, k, fk, n)
  {
    hide ValidEntries, EntryOf, DeferredOf;
    var v := rows[k].cells[fk.column];
    forall j | 0 <= j < n ensures Holds(es[j].id.table, CellsAt(es, j, u), fk, v) <==> RefersTo(rows[k], fk, rows[j]) {
      assert rows[j] in rows && es[j] == EntryOf(schema, d, rows[j]);
      EntryHolds(schema, d, rows[j], fk, v);
    }
  }

  lemma EarlyIff(schema: Schema, d: Deferral, row: Row, c: string)
    requires ValidRow(schema, d, row)
    ensures c in EntryOf(schema, d, row).early <==> c in row.cells && c !in DeferredOf(d, row.table)
    ensures c in EntryOf(schema, d, row).early ==> EntryOf(schema, d, row).early[c] == row.cells[c]
  {
  }

  lemma EntryIsRow(schema: Schema, d: Deferral, row: Row)
    requires row.table in schema
    ensures EntryOf(schema, d, row).full == row.cells && EntryOf(schema, d, row).id.table == row.table
  {
  }

  lemma InsertOkIff(schema: Schema, d: Deferral, rows: seq<Row>, es: seq<Entry>, k: nat)
    requires ValidRows(schema, d, rows) && KeysStay(schema, d, rows) && es == Entries(schema, d, rows) && k < |rows|
    ensures InsertOk(schema, es, k) <==>
              forall fk :: SetsKey(schema, rows[k], fk) && fk.column !in DeferredOf(d, rows[k].table) ==> Within(rows, k, fk, k + 1)
  {
    assert rows[k] in rows && ValidRow(schema, d, rows[k]);
    hide ValidRows, EntryOf, TargetAt, Within, DeferredOf, ValidRow;
    EntryIsRow(schema, d, rows[k]);
    forall c { EarlyIff(schema, d, rows[k], c); }
    forall fk | SetsKey(schema, rows[k], fk)
      ensures TargetAt(es, fk, rows[k].cells[fk.column], k + 1, 0) <==> Within(rows, k, fk, k + 1)
    {
      TargetIff(schema, d, rows, es, k, fk, k + 1, 0);
    }
  }

  lemma UpdateOkIff(schema: Schema, d: Deferral, rows: seq<Row>, es: seq<Entry>, k: nat)
    requires ValidRows(schema, d, rows) && KeysStay(schema, d, rows) && es == Entries(schema, d, rows) && k < |rows|
    ensures UpdateOk(schema, es, k) <==> forall fk :: SetsKey(schema, rows[k], fk) ==> Within(rows, k, fk, |rows|)
  {
    assert rows[k] in rows;
    hide ValidRows, EntryOf, TargetAt, Within, DeferredOf;
    EntryIsRow(schema, d, rows[k]);
    forall fk | SetsKey(schema, rows[k], fk)
      ensures TargetAt(es, fk, rows[k].cells[fk.column], |rows|, k + 1) <==> Within(rows, k, fk, |rows|)
    {
      TargetIff(schema, d, rows, es, k, fk, |rows|, k + 1);
    }
  }

  lemma RowOkIff(schema: Schema, d: Deferral, rows: seq<Row>, es: seq<Entry>, k: nat)
    requires ValidRows(schema, d, rows) && KeysStay(schema, d, rows) && es == Entries(schema, d, rows) && k < |rows|
    ensures InsertOk(schema, es, k) && CompletionOk(schema, d, rows[k], es, k) <==> RowOk(schema, d, rows, k)
  {
    InsertOkIff(schema, d, rows, es, k);
    UpdateOkIff(schema, d, rows, es, k);
    hide ValidRows, KeysStay, InsertOk, UpdateOk, SetsKey, Present, Distinct, RefersTo;
  }

  /** A file is loadable exactly when no row's update assigns a column twice and every reference leads to a
      row of the file, one already written unless the column is deferred. */
  lemma LoadableIff(schema: Schema, d: Deferral, rows: seq<Row>)
    requires ValidRows(schema, d, rows) && KeysStay(schema, d, rows)
    ensures Loadable(schema, d, rows) <==> forall k :: 0 <= k < |rows| ==> RowOk(schema, d, rows, k)
  {
    var es := Entries(schema, d, rows);
    hide ValidRows, KeysStay, InsertOk, CompletionOk, RowOk;
    forall k | 0 <= k < |rows|
      ensures InsertOk(schema, es, k) && CompletionOk(schema, d, rows[k], es, k) <==> RowOk(schema, d, rows, k)
    {
      RowOkIff(schema, d, rows, es, k);
    }
  }

  // ----- A condition on the exported rows alone -----

  /** The reference leads to an exported row by a column that is not deferred there. */
  ghost predicate ParentWritten(d: Deferral, rows: seq<Row>, row: Row, fk: ForeignKey)
    requires fk.column in row.cells
  {
    exists parent :: parent in rows && parent.table == fk.parentTable && fk.parentColumn in parent.cells
      && fk.parentColumn !in DeferredOf(d, parent.table) && parent.cells[fk.parentColumn] == row.cells[fk.column]
  }

  /** Every set foreign key leads to an exported row of another table by a column that is not
      deferred there, and to a later table only from a nullable column. */
  ghost predicate ReferencesOrdered(schema: Schema, position: map<string, nat>, d: Deferral, rows: seq<Row>)
    requires KnownRows(schema, rows)
  {
    && (forall row :: row in rows ==> row.table in position)
    && forall row, fk :: row in rows && fk in schema[row.table].foreignKeys && fk.column in row.cells ==>
        && fk.parentTable in position && fk.parentTable != row.table
        && (position[fk.parentTable] > position[row.table] ==> fk.column in schema[row.table].nullable)
        && ParentWritten(d, rows, row, fk)
  }

  /** References are ordered and no table defers a column twice. */
  ghost predicate Ordered(schema: Schema, position: map<string, nat>, d: Deferral, rows: seq<Row>)
    requires KnownRows(schema, rows)
  {
    (forall name :: name in d ==> Distinct(d[name])) && ReferencesOrdered(schema, position, d, rows)
  }

  /** Rows are written table by table. */
  ghost predicate TableByTable(position: map<string, nat>, rows: seq<Row>) {
    && (forall i :: 0 <= i < |rows| ==> rows[i].table in position)
    && (forall i, j :: 0 <= i <= j < |rows| ==> position[rows[i].table] <= position[rows[j].table])
  }

  lemma EarlierIndex(position: map<string, nat>, rows: seq<Row>, j: nat, k: nat)
    requires TableByTable(position, rows) && j < |rows| && k < |rows|
    requires rows[j].table in position && rows[k].table in position && position[rows[j].table] < position[rows[k].table]
    ensures j < k
  {
  }

  lemma {:induction false} EarlierTableFirst(schema: Schema, tables: seq<string>, rowsByTable: RowsByTable, position: map<string, nat>, n: nat)
    requires Tabled(schema, tables, rowsByTable) && Positions(tables, position) && n <= |tables|
    ensures TableByTable(position, AllRows(tables[..n], rowsByTable))
    ensures forall row :: row in AllRows(tables[..n], rowsByTable) ==> row.table in position && position[row.table] < n
    decreases n
  {
    if n > 0 {
      EarlierTableFirst(schema, tables, rowsByTable, position, n - 1);
      assert tables[..n][..n-1] == tables[..n-1] && tables[n-1] in tables;
      var before, last := AllRows(tables[..n-1], rowsByTable), RowsOf(rowsByTable, tables[n-1]);
      assert AllRows(tables[..n], rowsByTable) == before + last;
      AppendTable(position, before, last, n - 1);
    }
  }

  lemma AppendTable(position: map<string, nat>, before: seq<Row>, last: seq<Row>, n: nat)
    requires TableByTable(position, before)
    requires forall row :: row in before ==> row.table in position && position[row.table] < n
    requires forall row :: row in last ==> row.table in position && position[row.table] == n
    ensures TableByTable(position, before + last)
  {
    var rows := before + last;
    forall i | 0 <= i < |rows| ensures rows[i].table in position && (if i < |before| then position[rows[i].table] < n else position[rows[i].table] == n) {
      assert rows[i] in if i < |before| then before else last;
    }
  }

  /** A column that is set, nullable and leads to a later table is deferred. */
  lemma LaterIsDeferred(schema: Schema, position: map<string, nat>, rowsByTable: RowsByTable, row: Row, fk: ForeignKey)
    requires row.table in schema && row.table in position && row in RowsOf(rowsByTable, row.table)
    requires fk in schema[row.table].foreignKeys && fk.column in row.cells && fk.column in schema[row.table].nullable
    requires fk.parentTable in position && position[fk.parentTable] > position[row.table]
    ensures fk.column in DeferredOf(DeferralOf(schema, position, rowsByTable), row.table)
  {
    assert AnySet(RowsOf(rowsByTable, row.table), fk.column);
    assert LeadsLater(fk, fk.column, schema[row.table].nullable, position, position[row.table]);
  }

  lemma {:induction false} RowIsInItsTable(schema: Schema, tables: seq<string>, rowsByTable: RowsByTable, row: Row)
    requires Tabled(schema, tables, rowsByTable) && row in AllRows(tables, rowsByTable)
    ensures row in RowsOf(rowsByTable, row.table)
    decreases |tables|
  {
    if row in AllRows(tables[..|tables|-1], rowsByTable) {
      RowIsInItsTable(schema, tables[..|tables|-1], rowsByTable, row);
    }
  }

  /** Ordered exports load: on empty tables the script runs without violating a foreign key and
      leaves exactly the exported rows, and running it again changes nothing. */
  lemma OrderedExportLoads(schema: Schema, tables: seq<string>, rowsByTable: RowsByTable, position: map<string, nat>)
    requires Tabled(schema, tables, rowsByTable) && Positions(tables, position)
    requires var d, rows := DeferralOf(schema, position, rowsByTable), AllRows(tables, rowsByTable);
             ValidRows(schema, d, rows) && Ordered(schema, position, d, rows)
    ensures var d, rows := DeferralOf(schema, position, rowsByTable), AllRows(tables, rowsByTable);
            && Run(schema, map[], Script(schema, d, rows)) == Ok(Exported(schema, d, rows))
            && Run(schema, Exported(schema, d, rows), Script(schema, d, rows)) == Ok(Exported(schema, d, rows))
  {
    var d, rows := DeferralOf(schema, position, rowsByTable), AllRows(tables, rowsByTable);
    OrderedIsLoadable(schema, tables, rowsByTable, position, d, rows);
    hide Loadable, Run, Ordered, Exported, Script;
    ScriptLoadsExactly(schema, d, rows);
    ScriptIsIdempotent(schema, d, rows);
  }

  lemma OrderedIsLoadable(schema: Schema, tables: seq<string>, rowsByTable: RowsByTable, position: map<string, nat>, d: Deferral, rows: seq<Row>)
    requires Tabled(schema, tables, rowsByTable) && Positions(tables, position)
    requires d == DeferralOf(schema, position, rowsByTable) && rows == AllRows(tables, rowsByTable)
    requires ValidRows(schema, d, rows) && Ordered(schema, position, d, rows)
    ensures Loadable(schema, d, rows)
  {
    assert tables[..|tables|] == tables;
    EarlierTableFirst(schema, tables, rowsByTable, position, |tables|);
    OrderedKeysStay(schema, position, d, rows);
    LoadableIff(schema, d, rows);
    hide Loadable, ValidEntries, ValidRow, AllRows, DeferralOf, TableByTable, ReferencesOrdered, Positions, ReferenceOk, KeysStay;
    forall k | 0 <= k < |rows| ensures RowOk(schema, d, rows, k) {
      assert rows[k] in rows;
      RowIsInItsTable(schema, tables, rowsByTable, rows[k]);
      PresentDistinct(d, rows[k]);
      forall fk | SetsKey(schema, rows[k], fk) ensures ReferenceOk(d, rows, k, fk) {
        OrderedReference(schema, tables, rowsByTable, position, d, rows, k, fk);
      }
    }
  }

  lemma OrderedKeysStay(schema: Schema, position: map<string, nat>, d: Deferral, rows: seq<Row>)
    requires KnownRows(schema, rows) && Ordered(schema, position, d, rows)
    ensures KeysStay(schema, d, rows)
  {
    hide Ordered, DeferredOf;
    forall row, fk | row in rows && SetsKey(schema, row, fk) ensures fk.parentColumn !in DeferredOf(d, fk.parentTable) {
      OrderedHas(schema, position, d, rows, row, fk);
    }
  }

  lemma OrderedReference(schema: Schema, tables: seq<string>, rowsByTable: RowsByTable, position: map<string, nat>, d: Deferral,
                         rows: seq<Row>, k: nat, fk: ForeignKey)
    requires Positions(tables, position) && d == DeferralOf(schema, position, rowsByTable)
    requires KnownRows(schema, rows) && Ordered(schema, position, d, rows) && TableByTable(position, rows)
    requires k < |rows| && rows[k] in RowsOf(rowsByTable, rows[k].table) && SetsKey(schema, rows[k], fk)
    ensures ReferenceOk(d, rows, k, fk)
  {
    assert rows[k] in rows;
    OrderedHas(schema, position, d, rows, rows[k], fk);
    hide Ordered, DeferralOf, DeferredOf, Positions, RowsOf, TableByTable, KnownRows, SetsKey;
    assert exists parent :: parent in rows && RefersTo(rows[k], fk, parent);
    hide ParentWritten;
    var parent :| parent in rows && RefersTo(rows[k], fk, parent);
    var j :| 0 <= j < |rows| && rows[j] == parent;
    if fk.column !in DeferredOf(d, rows[k].table) {
      UndeferredIsEarlier(schema, tables, rowsByTable, position, d, rows, rows[k], fk);
      EarlierIndex(position, rows, j, k);
    }
  }

  lemma {:induction false} FilterDistinct(columns: seq<string>, keep: string -> bool)
    requires Distinct(columns)
    ensures Distinct(Filter(columns, keep))
  {
    if columns != [] {
      assert Distinct(columns[1..]) && columns[0] !in columns[1..];
      FilterDistinct(columns[1..], keep);
      var rest := Filter(columns[1..], keep);
      assert columns[0] !in rest;
    }
  }

  lemma PresentDistinct(d: Deferral, row: Row)
    requires forall name :: name in d ==> Distinct(d[name])
    ensures Distinct(Present(d, row))
  {
    FilterDistinct(DeferredOf(d, row.table), c => c in row.cells);
  }

  lemma OrderedHas(schema: Schema, position: map<string, nat>, d: Deferral, rows: seq<Row>, row: Row, fk: ForeignKey)
    requires KnownRows(schema, rows) && Ordered(schema, position, d, rows)
    requires row in rows && fk in schema[row.table].foreignKeys && fk.column in row.cells
    ensures row.table in position && fk.parentTable in position && fk.parentTable != row.table
    ensures position[fk.parentTable] > position[row.table] ==> fk.column in schema[row.table].nullable
    ensures ParentWritten(d, rows, row, fk)
  {
    hide ParentWritten, Distinct;
  }

  /** What is not deferred leads to an earlier table. */
  lemma UndeferredIsEarlier(schema: Schema, tables: seq<string>, rowsByTable: RowsByTable, position: map<string, nat>, d: Deferral,
                            rows: seq<Row>, row: Row, fk: ForeignKey)
    requires Positions(tables, position) && d == DeferralOf(schema, position, rowsByTable)
    requires KnownRows(schema, rows) && Ordered(schema, position, d, rows)
    requires row in rows && row in RowsOf(rowsByTable, row.table)
    requires SetsKey(schema, row, fk) && fk.column !in DeferredOf(d, row.table)
    ensures fk.parentTable in position && row.table in position && position[fk.parentTable] < position[row.table]
  {
    hide Positions, Ordered, DeferralOf, DeferredOf, RowsOf;
    OrderedHas(schema, position, d, rows, row, fk);
    if position[fk.parentTable] > position[row.table] {
      LaterIsDeferred(schema, position, rowsByTable, row, fk);
    }
    PositionsDiffer(tables, position, fk.parentTable, row.table);
  }

  lemma PositionsDiffer(tables: seq<string>, position: map<string, nat>, a: string, b: string)
    requires Positions(tables, position) && a in position && b in position && a != b
    ensures position[a] != position[b]
  {
    var i :| 0 <= i < |tables| && tables[i] == a;
    var j :| 0 <= j < |tables| && tables[j] == b;
  }

  // ----- A column with two later parents -----

  lemma {:induction false} FilterCount(columns: seq<string>, keep: string -> bool, c: string)
    requires keep(c)
    ensures multiset(Filter(columns, keep))[c] == multiset(columns)[c]
    decreases |columns|
  {
    if columns != [] {
      assert columns == [columns[0]] + columns[1..];
      FilterCount(columns[1..], keep, c);
    }
  }

  lemma DistinctCounts(columns: seq<string>, c: string)
    requires Distinct(columns)
    ensures multiset(columns)[c] <= 1
    decreases |columns|
  {
    if columns != [] {
      assert columns == [columns[0]] + columns[1..];
      if columns[0] == c { assert c !in columns[1..]; } else { DistinctCounts(columns[1..], c); }
    }
  }

  /** How often a column is deferred. */
  function Deferrals(foreignKeys: seq<ForeignKey>, nullable: set<string>, position: map<string, nat>, own: nat, c: string): nat {
    multiset(DeferredColumns(foreignKeys, nullable, position, own))[c]
  }

  lemma DeferralsCons(foreignKeys: seq<ForeignKey>, nullable: set<string>, position: map<string, nat>, own: nat, c: string)
    requires foreignKeys != []
    ensures Deferrals(foreignKeys, nullable, position, own, c) ==
              (if LeadsLater(foreignKeys[0], c, nullable, position, own) then 1 else 0) + Deferrals(foreignKeys[1..], nullable, position, own, c)
  {
    hide SomeLeadsLater;
  }

  lemma DeferralsPositive(foreignKeys: seq<ForeignKey>, nullable: set<string>, position: map<string, nat>, own: nat, c: string)
    ensures Deferrals(foreignKeys, nullable, position, own, c) >= 1 <==> SomeLeadsLater(foreignKeys, c, nullable, position, own)
  {
    hide SomeLeadsLater;
    assert c in DeferredColumns(foreignKeys, nullable, position, own) <==> SomeLeadsLater(foreignKeys, c, nullable, position, own);
  }

  lemma {:induction false} DeferredOnceEach(foreignKeys: seq<ForeignKey>, nullable: set<string>, position: map<string, nat>,
                                            own: nat, c: string, i: nat, j: nat)
    requires i < j < |foreignKeys|
    requires LeadsLater(foreignKeys[i], c, nullable, position, own) && LeadsLater(foreignKeys[j], c, nullable, position, own)
    ensures Deferrals(foreignKeys, nullable, position, own, c) >= 2
    decreases |foreignKeys|
  {
    hide LeadsLater, Deferrals;
    var rest := foreignKeys[1..];
    DeferralsCons(foreignKeys, nullable, position, own, c);
    if i > 0 {
      DeferredOnceEach(rest, nullable, position, own, c, i - 1, j - 1);
    } else {
      assert rest[j-1] in rest && SomeLeadsLater(rest, c, nullable, position, own);
      DeferralsPositive(rest, nullable, position, own, c);
    }
  }

  lemma {:induction false} DeferredTwice(foreignKeys: seq<ForeignKey>, nullable: set<string>, position: map<string, nat>, own: nat, c: string)
    returns (i: nat, j: nat)
    requires Deferrals(foreignKeys, nullable, position, own, c) >= 2
    ensures i < j < |foreignKeys|
    ensures LeadsLater(foreignKeys[i], c, nullable, position, own) && LeadsLater(foreignKeys[j], c, nullable, position, own)
    decreases |foreignKeys|
  {
    assert foreignKeys != [];
    hide LeadsLater, Deferrals;
    var rest := foreignKeys[1..];
    DeferralsCons(foreignKeys, nullable, position, own, c);
    if LeadsLater(foreignKeys[0], c, nullable, position, own) {
      DeferralsPositive(rest, nullable, position, own, c);
      var fk :| fk in rest && LeadsLater(fk, c, nullable, position, own);
      var n :| 0 <= n < |rest| && rest[n] == fk;
      i, j := 0, n + 1;
    } else {
      i, j := DeferredTwice(rest, nullable, position, own, c);
      i, j := i + 1, j + 1;
    }
  }

  /** No column the row sets has two foreign keys to later tables. */
  ghost predicate OneLater(table: Table, position: map<string, nat>, row: Row)
    requires row.table in position
  {
    forall i, j :: 0 <= i < j < |table.foreignKeys| && table.foreignKeys[i].column in row.cells ==>
      !(BothLater(table.foreignKeys[i], table.foreignKeys[j], table.nullable, position, position[row.table]))
  }

  predicate BothLater(a: ForeignKey, b: ForeignKey, nullable: set<string>, position: map<string, nat>, own: nat) {
    LeadsLater(a, a.column, nullable, position, own) && LeadsLater(b, a.column, nullable, position, own)
  }

  lemma PresentCount(schema: Schema, position: map<string, nat>, rowsByTable: RowsByTable, row: Row, c: string)
    requires row.table in schema && row.table in position && row in RowsOf(rowsByTable, row.table)
    ensures var t := schema[row.table];
            multiset(Present(DeferralOf(schema, position, rowsByTable), row))[c] ==
              if c in row.cells then Deferrals(t.foreignKeys, t.nullable, position, position[row.table], c) else 0
  {
    hide DeferredColumns, Filter;
    var d, t := DeferralOf(schema, position, rowsByTable), schema[row.table];
    var later := DeferredColumns(t.foreignKeys, t.nullable, position, position[row.table]);
    assert DeferredOf(d, row.table) == DeferredIn(schema, position, rowsByTable, row.table);
    if c in row.cells {
      FilterCount(later, c => AnySet(RowsOf(rowsByTable, row.table), c), c);
      FilterCount(DeferredOf(d, row.table), c => c in row.cells, c);
    } else {
      assert c !in Present(d, row);
    }
  }

  lemma CountsDistinct<T>(s: seq<T>)
    requires forall c :: multiset(s)[c] <= 1
    ensures Distinct(s)
  {
    forall i, j | 0 <= i < j < |s| ensures s[i] != s[j] {
      assert s == s[..j] + s[j..] && s[i] in s[..j] && s[j] in s[j..];
      assert multiset(s)[s[i]] == multiset(s[..j])[s[i]] + multiset(s[j..])[s[i]];
    }
  }

  /** A row's update assigns no column twice exactly when no column it sets has two foreign keys to later
      tables. */
  lemma PresentDistinctIff(schema: Schema, position: map<string, nat>, rowsByTable: RowsByTable, row: Row)
    requires row.table in schema && row.table in position && row in RowsOf(rowsByTable, row.table)
    ensures Distinct(Present(DeferralOf(schema, position, rowsByTable), row)) <==> OneLater(schema[row.table], position, row)
  {
    hide Deferrals, Present, LeadsLater, DeferralOf, RowsOf;
    var t, own := schema[row.table], position[row.table];
    var present := Present(DeferralOf(schema, position, rowsByTable), row);
    forall c { PresentCount(schema, position, rowsByTable, row, c); }
    if c :| multiset(present)[c] >= 2 {
      var i, j := DeferredTwice(t.foreignKeys, t.nullable, position, own, c);
      LaterColumn(t.foreignKeys[i], c, t.nullable, position, own);
      assert BothLater(t.foreignKeys[i], t.foreignKeys[j], t.nullable, position, own);
      if Distinct(present) { DistinctCounts(present, c); }
    } else {
      CountsDistinct(present);
      forall i, j | 0 <= i < j < |t.foreignKeys| && t.foreignKeys[i].column in row.cells
        ensures !BothLater(t.foreignKeys[i], t.foreignKeys[j], t.nullable, position, own)
      {
        if BothLater(t.foreignKeys[i], t.foreignKeys[j], t.nullable, position, own) {
          DeferredOnceEach(t.foreignKeys, t.nullable, position, own, t.foreignKeys[i].column, i, j);
          assert false;
        }
      }
    }
  }

  lemma LaterColumn(fk: ForeignKey, c: string, nullable: set<string>, position: map<string, nat>, own: nat)
    requires LeadsLater(fk, c, nullable, position, own)
    ensures fk.column == c
  {
  }

  /** A row that sets a column with two foreign keys to later tables makes the script fail: its
      update assigns the column twice. */
  lemma TwoLaterParentsAreRejected(schema: Schema, tables: seq<string>, rowsByTable: RowsByTable, position: map<string, nat>, row: Row)
    requires Tabled(schema, tables, rowsByTable) && Positions(tables, position)
    requires ValidRows(schema, DeferralOf(schema, position, rowsByTable), AllRows(tables, rowsByTable))
    requires row in AllRows(tables, rowsByTable) && row.table in position && !OneLater(schema[row.table], position, row)
    ensures Run(schema, map[], Script(schema, DeferralOf(schema, position, rowsByTable), AllRows(tables, rowsByTable))) == Rejected
  {
    hide Run, Script, ValidRow, ValidEntries, DeferralOf, AllRows, OneLater;
    var d, rows := DeferralOf(schema, position, rowsByTable), AllRows(tables, rowsByTable);
    RowIsInItsTable(schema, tables, rowsByTable, row);
    PresentDistinctIff(schema, position, rowsByTable, row);
    NotLoadable(schema, d, rows, row);
    ScriptLoadsExactly(schema, d, rows);
  }

  lemma NotLoadable(schema: Schema, d: Deferral, rows: seq<Row>, row: Row)
    requires KnownRows(schema, rows) && row in rows && !Distinct(Present(d, row))
    ensures !Loadable(schema, d, rows)
  {
    hide Present, InsertOk, UpdateOk;
    var k :| 0 <= k < |rows| && rows[k] == row;
    assert !CompletionOk(schema, d, rows[k], Entries(schema, d, rows), k);
  }

  /** A child table whose one reference column has a foreign key to each of two later tables, and
      one row in each. */
  datatype TwoParents = TwoParents(child: string, first: string, second: string, id: string, ref: string, key: Value, value: Value)
  {
    predicate Valid() { child != first && child != second && first != second && id != ref }

    function Tables(): seq<string> { [child, first, second] }

    function Position(): map<string, nat> { map[child := 0, first := 1, second := 2] }

    function ParentTable(): Table { Table([id], [id], {id}, {}, []) }

    function ChildTable(): Table {
      Table([id, ref], [id], {id, ref}, {ref}, [ForeignKey(ref, first, id), ForeignKey(ref, second, id)])
    }

    function TheSchema(): Schema { map[child := ChildTable(), first := ParentTable(), second := ParentTable()] }

    function ChildRow(): Row { Row(child, map[id := key, ref := value]) }

    function ParentRow(name: string): Row { Row(name, map[id := value]) }

    function Rows(): RowsByTable { map[child := [ChildRow()], first := [ParentRow(first)], second := [ParentRow(second)]] }

    function Written(): seq<Row> { [ChildRow(), ParentRow(first), ParentRow(second)] }
  }

  lemma TwoParentsWritten(x: TwoParents)
    requires x.Valid()
    ensures AllRows(x.Tables(), x.Rows()) == x.Written()
  {
    hide x.ChildRow, x.ParentRow;
    var rows := x.Rows();
    var one, two := [x.child], [x.child, x.first];
    assert x.Tables()[..2] == two && two[..1] == one && one[..0] == [];
    assert AllRows(one, rows) == [x.ChildRow()];
    assert AllRows(two, rows) == [x.ChildRow(), x.ParentRow(x.first)];
  }

  lemma TwoParentsPlaced(x: TwoParents)
    requires x.Valid()
    ensures Tabled(x.TheSchema(), x.Tables(), x.Rows()) && Positions(x.Tables(), x.Position())
  {
    hide x.ChildTable, x.ParentTable;
  }

  lemma DeferredIsNullable(schema: Schema, position: map<string, nat>, rowsByTable: RowsByTable, name: string, c: string)
    requires c in DeferredOf(DeferralOf(schema, position, rowsByTable), name)
    ensures name in schema && c in schema[name].nullable
  {
  }

  lemma KeysNotDeferred(x: TwoParents)
    requires x.Valid()
    ensures forall name :: x.id !in DeferredOf(DeferralOf(x.TheSchema(), x.Position(), x.Rows()), name)
  {
    hide DeferralOf, DeferredOf, x.Rows, x.Position;
    var d := DeferralOf(x.TheSchema(), x.Position(), x.Rows());
    forall name ensures x.id !in DeferredOf(d, name) {
      if x.id in DeferredOf(d, name) { DeferredIsNullable(x.TheSchema(), x.Position(), x.Rows(), name, x.id); }
    }
  }

  lemma ParentsAreWritten(x: TwoParents, d: Deferral, fk: ForeignKey)
    requires x.Valid() && (forall name :: x.id !in DeferredOf(d, name)) && fk in x.ChildTable().foreignKeys
    ensures fk.column == x.ref && (fk.parentTable == x.first || fk.parentTable == x.second)
    ensures ParentWritten(d, x.Written(), x.ChildRow(), fk)
  {
    hide DeferredOf;
    assert x.ParentRow(x.first) in x.Written() && x.ParentRow(x.second) in x.Written();
  }

  lemma TwoParentsTables(x: TwoParents, row: Row)
    requires x.Valid() && row in x.Written()
    ensures row.table in x.TheSchema() && row.table in x.Position()
    ensures row == x.ChildRow() || x.TheSchema()[row.table].foreignKeys == []
    ensures x.TheSchema()[x.child] == x.ChildTable() && x.ChildRow().table == x.child && x.ref in x.ChildTable().nullable
  {
  }

  lemma TwoParentsOrdered(x: TwoParents, d: Deferral)
    requires x.Valid() && forall name :: x.id !in DeferredOf(d, name)
    ensures KnownRows(x.TheSchema(), x.Written()) && ReferencesOrdered(x.TheSchema(), x.Position(), d, x.Written())
  {
    TwoParentsKnown(x);
    forall row | row in x.Written() ensures row.table in x.Position() { TwoParentsTables(x, row); }
    assert x.Position()[x.child] == 0 && x.first in x.Position() && x.second in x.Position();
    hide DeferredOf, x.TheSchema, x.ChildTable, x.Written, ParentWritten;
    forall row, fk | row in x.Written() && fk in x.TheSchema()[row.table].foreignKeys && fk.column in row.cells
      ensures fk.parentTable in x.Position() && fk.parentTable != row.table && fk.column in x.TheSchema()[row.table].nullable
      ensures ParentWritten(d, x.Written(), row, fk)
    {
      TwoParentsTables(x, row);
      ParentsAreWritten(x, d, fk);
    }
  }

  lemma TwoParentsRows(x: TwoParents, d: Deferral)
    requires x.Valid() && forall name :: x.id !in DeferredOf(d, name)
    ensures ValidRow(x.TheSchema(), d, x.ChildRow())
    ensures ValidRow(x.TheSchema(), d, x.ParentRow(x.first)) && ValidRow(x.TheSchema(), d, x.ParentRow(x.second))
  {
    hide DeferredOf;
  }

  lemma EntryFits(schema: Schema, d: Deferral, row: Row)
    requires ValidRow(schema, d, row)
    ensures var e := EntryOf(schema, d, row); Sub(e.early, e.full) && e.id.table == row.table
  {
    EntryParts(schema, d, row);
  }

  lemma EntriesApart(es: seq<Entry>)
    requires |es| == 3 && es[0].id.table != es[1].id.table && es[1].id.table != es[2].id.table && es[0].id.table != es[2].id.table
    requires Sub(es[0].early, es[0].full) && Sub(es[1].early, es[1].full) && Sub(es[2].early, es[2].full)
    ensures ValidEntries(es)
  {
    hide Sub;
  }

  lemma ThreeEntries(schema: Schema, d: Deferral, rows: seq<Row>)
    requires KnownRows(schema, rows) && |rows| == 3 && forall i :: 0 <= i < 3 ==> ValidRow(schema, d, rows[i])
    requires rows[0].table != rows[1].table && rows[1].table != rows[2].table && rows[0].table != rows[2].table
    ensures ValidRows(schema, d, rows)
  {
    hide EntryOf, ValidRow, Sub, ValidEntries;
    EntryFits(schema, d, rows[0]);
    EntryFits(schema, d, rows[1]);
    EntryFits(schema, d, rows[2]);
    EntriesApart(Entries(schema, d, rows));
    forall row | row in rows ensures ValidRow(schema, d, row) {
      var i :| 0 <= i < 3 && rows[i] == row;
    }
  }

  lemma TwoParentsValid(x: TwoParents, d: Deferral)
    requires x.Valid() && forall name :: x.id !in DeferredOf(d, name)
    ensures ValidRows(x.TheSchema(), d, x.Written())
  {
    TwoParentsRows(x, d);
    hide DeferredOf, x.TheSchema, ValidRow, ValidRows;
    assert KnownRows(x.TheSchema(), x.Written()) by { TwoParentsKnown(x); }
    ThreeEntries(x.TheSchema(), d, x.Written());
  }

  lemma TwoParentsKnown(x: TwoParents)
    ensures KnownRows(x.TheSchema(), x.Written())
  {
  }

  /** Ordered references are not enough: every such export is rejected. */
  lemma OrderedReferencesCanFail(x: TwoParents)
    requires x.Valid()
    ensures KnownRows(x.TheSchema(), AllRows(x.Tables(), x.Rows()))
    ensures var d, rows := DeferralOf(x.TheSchema(), x.Position(), x.Rows()), AllRows(x.Tables(), x.Rows());
            && ReferencesOrdered(x.TheSchema(), x.Position(), d, rows)
            && Run(x.TheSchema(), map[], Script(x.TheSchema(), d, rows)) == Rejected
  {
    hide Run, Script, DeferralOf, AllRows, ValidRows, ReferencesOrdered, DeferredOf, KnownRows, Tabled, Positions;
    var d := DeferralOf(x.TheSchema(), x.Position(), x.Rows());
    TwoParentsWritten(x);
    TwoParentsPlaced(x);
    KeysNotDeferred(x);
    TwoParentsOrdered(x, d);
    TwoParentsValid(x, d);
    var keys := x.ChildTable().foreignKeys;
    assert BothLater(keys[0], keys[1], x.ChildTable().nullable, x.Position(), 0);
    TwoLaterParentsAreRejected(x.TheSchema(), x.Tables(), x.Rows(), x.Position(), x.ChildRow());
  }
}
