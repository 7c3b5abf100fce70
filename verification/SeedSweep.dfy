/** Tables and rows as the demo-seed exporter sees them. A cell that is absent is NULL. */
module SeedSchema {
  type Value = string
  type Cells = map<string, Value>

  datatype ForeignKey = ForeignKey(column: string, parentTable: string, parentColumn: string)

  /** `foreignKeys` lists the keys column by column; `indexed` are the columns of a type that
      `_record_collected` looks at. */
  datatype Table = Table(columns: seq<string>, primaryKey: seq<string>, indexed: set<string>,
                         nullable: set<string>, foreignKeys: seq<ForeignKey>)

  datatype Row = Row(table: string, cells: Cells)

  type Schema = map<string, Table>

  /** A foreign key the row sets. */
  predicate SetsKey(schema: Schema, row: Row, fk: ForeignKey) {
    row.table in schema && fk in schema[row.table].foreignKeys && fk.column in row.cells
  }

  predicate RefersTo(row: Row, fk: ForeignKey, parent: Row) {
    && fk.column in row.cells && parent.table == fk.parentTable && fk.parentColumn in parent.cells
    && parent.cells[fk.parentColumn] == row.cells[fk.column]
  }
}

/** The sweep of `export`: collect the demo tenant's rows by following foreign keys in both
    directions until nothing is added. */
module SeedSweep {
  import opened SeedSchema

  const GLOBAL_TABLES: set<string> := {"llm_pricing", "model", "node_prompt", "node_template"}
  const PASSES: nat := 6

  /** The keys of `collected`: values of a column, or values that refer to it. */
  datatype Key = Column(table: string, column: string) | Referenced(table: string, column: string)

  type Collected = map<Key, set<Value>>

  function Lookup(collected: Collected, key: Key): set<Value> {
    if key in collected then collected[key] else {}
  }

  // ----- Belonging -----

  /** Some foreign key of the row leads to a collected, non-catalogue row, or a collected row
      refers to one of its primary key columns. */
  predicate Linked(table: Table, row: Row, collected: Collected) {
    || (exists fk :: (
          && fk in table.foreignKeys && fk.parentTable !in GLOBAL_TABLES
          && fk.column in row.cells && row.cells[fk.column] in Lookup(collected, Column(fk.parentTable, fk.parentColumn))))
    || (exists c :: c in table.primaryKey && c in row.cells && row.cells[c] in Lookup(collected, Referenced(row.table, c)))
  }

  /** The condition of `_select_for`: catalogue rows all belong, the tenant column decides where
      it is set, and links decide otherwise. */
  predicate Belongs(table: Table, tenant: Value, row: Row, collected: Collected) {
    if row.table in GLOBAL_TABLES then true
    else if "tenant_id" in table.columns then
      (if "tenant_id" in row.cells then row.cells["tenant_id"] == tenant else Linked(table, row, collected))
    else Linked(table, row, collected)
  }

  /** The rows the statement of `_select_for` returns; a table without any clause yields none. */
  function Select(schema: Schema, db: set<Row>, tenant: Value, name: string, collected: Collected): (rows: set<Row>)
    requires name in schema
  {
    set row | row in db && row.table == name && Belongs(schema[name], tenant, row, collected)
  }

  // ----- The index of a set of rows -----

  /** The values a set of rows contributes under a key. */
  function Contributed(schema: Schema, rows: set<Row>, key: Key): set<Value> {
    match key
    case Column(t, c) =>
      set row | row in rows && row.table == t && t in schema && c in schema[t].columns && c in schema[t].indexed && c in row.cells
        :: row.cells[c]
    case Referenced(t, c) =>
      set row, fk | row in rows && row.table in schema && fk in schema[row.table].foreignKeys
        && fk.parentTable == t && fk.parentColumn == c
        && fk.column in schema[row.table].columns && fk.column in schema[row.table].indexed && fk.column in row.cells
        :: row.cells[fk.column]
  }

  ghost predicate Indexes(schema: Schema, collected: Collected, rows: set<Row>) {
    forall key :: Lookup(collected, key) == Contributed(schema, rows, key)
  }

  /** Rows belong relative to a set of rows through the index of that set. */
  ghost predicate BelongsTo(schema: Schema, tenant: Value, row: Row, rows: set<Row>)
    requires row.table in schema
  {
    exists collected :: Indexes(schema, collected, rows) && Belongs(schema[row.table], tenant, row, collected)
  }

  /** Closed under tenant ownership, shared catalogues and foreign-key links both ways. */
  ghost predicate Closed(schema: Schema, db: set<Row>, tenant: Value, rows: set<Row>) {
    forall row :: row in db && row.table in schema && BelongsTo(schema, tenant, row, rows) ==> row in rows
  }

  lemma ContributedGrows(schema: Schema, rows: set<Row>, more: set<Row>, key: Key)
    requires rows <= more
    ensures Contributed(schema, rows, key) <= Contributed(schema, more, key)
  {
  }

  /** Belonging is monotone: a larger index never drops a row. */
  lemma BelongsGrows(schema: Schema, tenant: Value, row: Row, c: Collected, rows: set<Row>, c': Collected, more: set<Row>)
    requires row.table in schema && rows <= more
    requires Indexes(schema, c, rows) && Indexes(schema, c', more)
    requires Belongs(schema[row.table], tenant, row, c)
    ensures Belongs(schema[row.table], tenant, row, c')
  {
    forall key ensures Lookup(c, key) <= Lookup(c', key) {
      ContributedGrows(schema, rows, more, key);
    }
    var table := schema[row.table];
    if Linked(table, row, c) {
      assert Linked(table, row, c');
    }
  }

  lemma SelectGrows(schema: Schema, db: set<Row>, tenant: Value, name: string, c: Collected, rows: set<Row>, c': Collected, more: set<Row>)
    requires name in schema && rows <= more && Indexes(schema, c, rows) && Indexes(schema, c', more)
    ensures Select(schema, db, tenant, name, c) <= Select(schema, db, tenant, name, c')
  {
    forall row | row in Select(schema, db, tenant, name, c) ensures row in Select(schema, db, tenant, name, c') {
      BelongsGrows(schema, tenant, row, c, rows, c', more);
    }
  }

  /** What is selected from within a closed set stays inside it. */
  lemma SelectStaysInside(schema: Schema, db: set<Row>, tenant: Value, name: string, c: Collected, rows: set<Row>, closed: set<Row>)
    requires name in schema && Indexes(schema, c, rows) && rows <= closed && Closed(schema, db, tenant, closed)
    ensures Select(schema, db, tenant, name, c) <= closed
  {
    var full := IndexOf(schema, closed);
    forall row | row in Select(schema, db, tenant, name, c) ensures row in closed {
      BelongsGrows(schema, tenant, row, c, rows, full, closed);
      assert BelongsTo(schema, tenant, row, closed);
    }
  }

  /** Every set of rows has an index. */
  function AllKeys(schema: Schema, rows: set<Row>): set<Key> {
    (set row, c | row in rows && row.table in schema && c in schema[row.table].columns :: Column(row.table, c))
    + (set row, fk | row in rows && row.table in schema && fk in schema[row.table].foreignKeys :: Referenced(fk.parentTable, fk.parentColumn))
  }

  lemma IndexOf(schema: Schema, rows: set<Row>) returns (c: Collected)
    ensures Indexes(schema, c, rows)
  {
    c := map key | key in AllKeys(schema, rows) :: Contributed(schema, rows, key);
    forall key ensures Lookup(c, key) == Contributed(schema, rows, key) {
      if key !in c {
        assert Contributed(schema, rows, key) == {};
      }
    }
  }

  lemma IndexesAgree(schema: Schema, tenant: Value, row: Row, c: Collected, c': Collected, rows: set<Row>)
    requires row.table in schema && Indexes(schema, c, rows) && Indexes(schema, c', rows)
    ensures Belongs(schema[row.table], tenant, row, c) <==> Belongs(schema[row.table], tenant, row, c')
  {
    if Belongs(schema[row.table], tenant, row, c) { BelongsGrows(schema, tenant, row, c, rows, c', rows); }
    if Belongs(schema[row.table], tenant, row, c') { BelongsGrows(schema, tenant, row, c', rows, c, rows); }
  }

  /** The row carries another tenant's identifier and is not in a shared catalogue. */
  predicate Foreign(table: Table, tenant: Value, row: Row) {
    row.table !in GLOBAL_TABLES && "tenant_id" in table.columns && "tenant_id" in row.cells && row.cells["tenant_id"] != tenant
  }

  /** When nothing more belongs and everything collected does, a row that a collected row refers
      to by primary key is collected too, unless it is another tenant's. */
  lemma ParentCollectedIff(schema: Schema, db: set<Row>, tenant: Value, rows: set<Row>, child: Row, fk: ForeignKey, parent: Row)
    requires Closed(schema, db, tenant, rows)
    requires forall row :: row in rows ==> row.table in schema && BelongsTo(schema, tenant, row, rows)
    requires child in rows && fk in schema[child.table].foreignKeys && fk.column in child.cells
    requires fk.column in schema[child.table].columns && fk.column in schema[child.table].indexed
    requires parent in db && parent.table == fk.parentTable && parent.table in schema
    requires fk.parentColumn in schema[parent.table].primaryKey && fk.parentColumn in parent.cells
    requires parent.cells[fk.parentColumn] == child.cells[fk.column]
    ensures parent in rows <==> !Foreign(schema[parent.table], tenant, parent)
  {
    var table := schema[parent.table];
    if !Foreign(table, tenant, parent) {
      var c := IndexOf(schema, rows);
      assert child.cells[fk.column] in Contributed(schema, rows, Referenced(parent.table, fk.parentColumn));
      assert parent.cells[fk.parentColumn] in Lookup(c, Referenced(parent.table, fk.parentColumn));
      assert Linked(table, parent, c);
      assert BelongsTo(schema, tenant, parent, rows);
    }
  }

  /** Likewise a row that refers to a collected row outside the shared catalogues. */
  lemma ChildCollectedIff(schema: Schema, db: set<Row>, tenant: Value, rows: set<Row>, child: Row, fk: ForeignKey, parent: Row)
    requires Closed(schema, db, tenant, rows)
    requires forall row :: row in rows ==> row.table in schema && BelongsTo(schema, tenant, row, rows)
    requires child in db && SetsKey(schema, child, fk) && RefersTo(child, fk, parent)
    requires parent in rows && parent.table !in GLOBAL_TABLES && Looked(schema[parent.table], fk.parentColumn)
    ensures child in rows <==> !Foreign(schema[child.table], tenant, child)
  {
    BelongsToIff(schema, tenant, child, rows);
    assert Under(schema, child, parent);
    hide BelongsTo, Under, Over;
  }

  // ----- The same in terms of rows and foreign keys -----

  /** The column is one whose values are recorded. */
  predicate Looked(table: Table, column: string) { column in table.columns && column in table.indexed }

  /** The row carries the tenant's identifier; it carries none. */
  predicate Owned(table: Table, tenant: Value, row: Row) {
    "tenant_id" in table.columns && "tenant_id" in row.cells && row.cells["tenant_id"] == tenant
  }

  predicate Unclaimed(table: Table, row: Row) { !("tenant_id" in table.columns && "tenant_id" in row.cells) }

  /** The row refers to the other one, which is in no shared catalogue. */
  ghost predicate Under(schema: Schema, row: Row, other: Row) {
    && row.table in schema && other.table in schema && other.table !in GLOBAL_TABLES
    && exists fk :: fk in schema[row.table].foreignKeys && RefersTo(row, fk, other) && Looked(schema[other.table], fk.parentColumn)
  }

  /** The other row refers to this one by a primary key column. */
  ghost predicate Over(schema: Schema, row: Row, other: Row) {
    && row.table in schema && other.table in schema
    && exists fk :: fk in schema[other.table].foreignKeys && RefersTo(other, fk, row)
                    && fk.parentColumn in schema[row.table].primaryKey && Looked(schema[other.table], fk.column)
  }

  ghost predicate Related(schema: Schema, row: Row, other: Row) { Under(schema, row, other) || Over(schema, row, other) }

  ghost predicate HasRelative(schema: Schema, row: Row, rows: set<Row>) { exists other :: other in rows && Related(schema, row, other) }

  lemma LinkedIff(schema: Schema, row: Row, collected: Collected, rows: set<Row>)
    requires row.table in schema && Indexes(schema, collected, rows)
    ensures Linked(schema[row.table], row, collected) <==> HasRelative(schema, row, rows)
  {
    var table := schema[row.table];
    if fk :| fk in table.foreignKeys && fk.parentTable !in GLOBAL_TABLES
             && fk.column in row.cells && row.cells[fk.column] in Lookup(collected, Column(fk.parentTable, fk.parentColumn)) {
      var other := ColumnHolder(schema, rows, collected, fk.parentTable, fk.parentColumn, row.cells[fk.column]);
      assert RefersTo(row, fk, other) && Under(schema, row, other);
    }
    if c :| c in table.primaryKey && c in row.cells && row.cells[c] in Lookup(collected, Referenced(row.table, c)) {
      var other, fk := Referrer(schema, rows, collected, row.table, c, row.cells[c]);
      assert RefersTo(other, fk, row) && Over(schema, row, other);
    }
    if HasRelative(schema, row, rows) {
      var other :| other in rows && Related(schema, row, other);
      if Under(schema, row, other) {
        UnderIsLinked(schema, row, collected, rows, other);
      } else {
        OverIsLinked(schema, row, collected, rows, other);
      }
    }
  }

  lemma ColumnHolder(schema: Schema, rows: set<Row>, collected: Collected, name: string, column: string, v: Value) returns (row: Row)
    requires Indexes(schema, collected, rows) && v in Lookup(collected, Column(name, column))
    ensures row in rows && row.table == name && name in schema && Looked(schema[name], column)
    ensures column in row.cells && row.cells[column] == v
  {
    assert v in Contributed(schema, rows, Column(name, column));
    row :| row in rows && row.table == name && name in schema && column in schema[name].columns && column in schema[name].indexed
           && column in row.cells && row.cells[column] == v;
  }

  lemma Referrer(schema: Schema, rows: set<Row>, collected: Collected, name: string, column: string, v: Value)
    returns (row: Row, fk: ForeignKey)
    requires Indexes(schema, collected, rows) && v in Lookup(collected, Referenced(name, column))
    ensures row in rows && row.table in schema && fk in schema[row.table].foreignKeys && fk.parentTable == name && fk.parentColumn == column
    ensures Looked(schema[row.table], fk.column) && fk.column in row.cells && row.cells[fk.column] == v
  {
    assert v in Contributed(schema, rows, Referenced(name, column));
    row, fk :| row in rows && row.table in schema && fk in schema[row.table].foreignKeys
               && fk.parentTable == name && fk.parentColumn == column
               && fk.column in schema[row.table].columns && fk.column in schema[row.table].indexed && fk.column in row.cells
               && row.cells[fk.column] == v;
  }

  lemma UnderIsLinked(schema: Schema, row: Row, collected: Collected, rows: set<Row>, other: Row)
    requires row.table in schema && Indexes(schema, collected, rows) && other in rows && Under(schema, row, other)
    ensures Linked(schema[row.table], row, collected)
  {
    var fk :| fk in schema[row.table].foreignKeys && RefersTo(row, fk, other) && Looked(schema[other.table], fk.parentColumn);
    assert row.cells[fk.column] in Contributed(schema, rows, Column(fk.parentTable, fk.parentColumn));
    assert row.cells[fk.column] in Lookup(collected, Column(fk.parentTable, fk.parentColumn));
  }

  lemma OverIsLinked(schema: Schema, row: Row, collected: Collected, rows: set<Row>, other: Row)
    requires row.table in schema && Indexes(schema, collected, rows) && other in rows && Over(schema, row, other)
    ensures Linked(schema[row.table], row, collected)
  {
    var fk :| fk in schema[other.table].foreignKeys && RefersTo(other, fk, row)
              && fk.parentColumn in schema[row.table].primaryKey && Looked(schema[other.table], fk.column);
    assert other.cells[fk.column] in Contributed(schema, rows, Referenced(row.table, fk.parentColumn));
    assert row.cells[fk.parentColumn] in Lookup(collected, Referenced(row.table, fk.parentColumn));
  }

  /** A row belongs to a set of rows when it is in a shared catalogue, when it carries the tenant, or when
      it carries no tenant and is related to a row of the set. */
  ghost predicate Included(schema: Schema, tenant: Value, row: Row, rows: set<Row>)
    requires row.table in schema
  {
    || row.table in GLOBAL_TABLES
    || Owned(schema[row.table], tenant, row)
    || (Unclaimed(schema[row.table], row) && HasRelative(schema, row, rows))
  }

  lemma BelongsToIff(schema: Schema, tenant: Value, row: Row, rows: set<Row>)
    requires row.table in schema
    ensures BelongsTo(schema, tenant, row, rows) <==> Included(schema, tenant, row, rows)
  {
    hide Linked, HasRelative, Indexes;
    var c := IndexOf(schema, rows);
    LinkedIff(schema, row, c, rows);
    if BelongsTo(schema, tenant, row, rows) {
      var c' :| Indexes(schema, c', rows) && Belongs(schema[row.table], tenant, row, c');
      LinkedIff(schema, row, c', rows);
    }
  }

  /** When nothing more belongs and everything collected does, these are exactly the rows collected. */
  lemma CollectedIff(schema: Schema, db: set<Row>, tenant: Value, rows: set<Row>, row: Row)
    requires Closed(schema, db, tenant, rows)
    requires forall row :: row in rows ==> row.table in schema && BelongsTo(schema, tenant, row, rows)
    requires row in db && row.table in schema
    ensures row in rows <==> Included(schema, tenant, row, rows)
  {
    hide BelongsTo, Included;
    BelongsToIff(schema, tenant, row, rows);
  }

  // ----- Chains of relatives -----

  /** Rows of the database, the first in a shared catalogue or the tenant's, each other one without a
      tenant and related to the one before it. */
  ghost predicate Chain(schema: Schema, db: set<Row>, tenant: Value, chain: seq<Row>) {
    && chain != [] && (forall i :: 0 <= i < |chain| ==> chain[i] in db && chain[i].table in schema)
    && (chain[0].table in GLOBAL_TABLES || Owned(schema[chain[0].table], tenant, chain[0]))
    && forall i :: 0 < i < |chain| ==> Unclaimed(schema[chain[i].table], chain[i]) && Related(schema, chain[i], chain[i-1])
  }

  ghost predicate Reached(schema: Schema, db: set<Row>, tenant: Value, row: Row) {
    exists chain :: Chain(schema, db, tenant, chain) && chain[|chain|-1] == row
  }

  ghost function AllReached(schema: Schema, db: set<Row>, tenant: Value): set<Row> {
    set row | row in db && Reached(schema, db, tenant, row)
  }

  lemma ChainExtends(schema: Schema, db: set<Row>, tenant: Value, chain: seq<Row>, row: Row)
    requires Chain(schema, db, tenant, chain) && row in db && row.table in schema
    requires Unclaimed(schema[row.table], row) && Related(schema, row, chain[|chain|-1])
    ensures Chain(schema, db, tenant, chain + [row])
  {
    hide Related, Owned, Unclaimed;
  }

  lemma IncludedIsReached(schema: Schema, db: set<Row>, tenant: Value, row: Row)
    requires row in db && row.table in schema && Included(schema, tenant, row, AllReached(schema, db, tenant))
    ensures Reached(schema, db, tenant, row)
  {
    hide Related;
    if row.table in GLOBAL_TABLES || Owned(schema[row.table], tenant, row) {
      assert Chain(schema, db, tenant, [row]);
    } else {
      var other :| other in AllReached(schema, db, tenant) && Related(schema, row, other);
      var chain :| Chain(schema, db, tenant, chain) && chain[|chain|-1] == other;
      ChainExtends(schema, db, tenant, chain, row);
      var longer := chain + [row];
      hide Chain, Owned, Unclaimed;
      assert longer[|longer|-1] == row;
    }
  }

  lemma ReachedIsClosed(schema: Schema, db: set<Row>, tenant: Value)
    ensures Closed(schema, db, tenant, AllReached(schema, db, tenant))
  {
    var all := AllReached(schema, db, tenant);
    hide Included, BelongsTo, Reached;
    forall row | row in db && row.table in schema && BelongsTo(schema, tenant, row, all) ensures row in all {
      BelongsToIff(schema, tenant, row, all);
      IncludedIsReached(schema, db, tenant, row);
    }
  }

  lemma {:induction false} ChainStaysInside(schema: Schema, db: set<Row>, tenant: Value, closed: set<Row>, chain: seq<Row>)
    requires Closed(schema, db, tenant, closed) && Chain(schema, db, tenant, chain)
    ensures chain[|chain|-1] in closed
    decreases |chain|
  {
    var last := chain[|chain|-1];
    hide Related, BelongsTo;
    if |chain| > 1 {
      var init := chain[..|chain|-1];
      ChainStaysInside(schema, db, tenant, closed, init);
      assert Related(schema, last, init[|init|-1]);
    }
    BelongsToIff(schema, tenant, last, closed);
  }

  /** The rows reached by chains are the least closed set of rows. */
  lemma ReachedIsLeast(schema: Schema, db: set<Row>, tenant: Value, closed: set<Row>)
    requires Closed(schema, db, tenant, closed)
    ensures AllReached(schema, db, tenant) <= closed
  {
    hide Closed, Related;
    forall row | row in AllReached(schema, db, tenant) ensures row in closed {
      var chain :| Chain(schema, db, tenant, chain) && chain[|chain|-1] == row;
      ChainStaysInside(schema, db, tenant, closed, chain);
    }
  }

  // ----- The sweep as the source runs it -----

  /** The non-NULL values of a column. */
  function ColumnValues(rows: set<Row>, column: string): set<Value> {
    set row | row in rows && column in row.cells :: row.cells[column]
  }

  /** The keys under which a column's values are recorded. */
  predicate Feeds(name: string, column: string, foreignKeys: seq<ForeignKey>, key: Key) {
    || key == Column(name, column)
    || exists fk :: fk in foreignKeys && fk.column == column && key == Referenced(fk.parentTable, fk.parentColumn)
  }

  /** What one table's rows contribute through the given columns. */
  ghost function Through(table: Table, name: string, rows: set<Row>, columns: seq<string>, key: Key): set<Value> {
    set row, c | row in rows && c in columns && c in table.indexed && Feeds(name, c, table.foreignKeys, key) && c in row.cells
      :: row.cells[c]
  }

  lemma ThroughAllColumns(schema: Schema, name: string, rows: set<Row>, key: Key)
    requires name in schema && forall row :: row in rows ==> row.table == name
    ensures Through(schema[name], name, rows, schema[name].columns, key) == Contributed(schema, rows, key)
  {
  }

  lemma ThroughOneMore(table: Table, name: string, rows: set<Row>, columns: seq<string>, column: string, key: Key)
    ensures Through(table, name, rows, columns + [column], key) ==
            Through(table, name, rows, columns, key)
            + if column in table.indexed && Feeds(name, column, table.foreignKeys, key) then ColumnValues(rows, column) else {}
  {
  }

  lemma ContributedUnion(schema: Schema, a: set<Row>, b: set<Row>, key: Key)
    ensures Contributed(schema, a + b, key) == Contributed(schema, a, key) + Contributed(schema, b, key)
  {
  }

  function Union(rowsByTable: map<string, set<Row>>): set<Row> {
    set name, row | name in rowsByTable && row in rowsByTable[name] :: row
  }

  lemma UnionReplaced(rowsByTable: map<string, set<Row>>, name: string, rows: set<Row>)
    requires name in rowsByTable ==> rowsByTable[name] <= rows
    ensures Union(rowsByTable[name := rows]) == Union(rowsByTable) + rows
  {
    var updated := rowsByTable[name := rows];
    forall row | row in Union(rowsByTable) ensures row in Union(updated) {
      var n :| n in rowsByTable && row in rowsByTable[n];
      assert n in updated && row in updated[n];
    }
    assert name in updated && updated[name] == rows;
  }

  class Exporter {
    const schema: Schema
    const db: set<Row>
    const tenant: Value
    var collected: Collected
    var rowsByTable: map<string, set<Row>>

    constructor (schema: Schema, db: set<Row>, tenant: Value)
      ensures this.schema == schema && this.db == db && this.tenant == tenant
      ensures collected == map[] && rowsByTable == map[]
    {
      this.schema, this.db, this.tenant := schema, db, tenant;
      collected, rowsByTable := map[], map[];
    }

    /** All rows collected so far. */
    ghost function Rows(): set<Row> reads this { Union(rowsByTable) }

    function Known(name: string): set<Row> reads this {
      if name in rowsByTable then rowsByTable[name] else {}
    }

    /** The index covers exactly the collected rows, and these come from the database. */
    ghost predicate Valid() reads this {
      && Indexes(schema, collected, Rows())
      && (forall name :: name in rowsByTable ==> name in schema && rowsByTable[name] != {})
      && (forall name, row :: name in rowsByTable && row in rowsByTable[name] ==> row in db && row.table == name)
    }

    /** One column in `_record_collected`. */
    method RecordColumn(name: string, rows: set<Row>, column: string)
      requires name in schema && column in schema[name].indexed
      modifies this`collected
      ensures forall key :: Lookup(collected, key) == Lookup(old(collected), key)
                + if Feeds(name, column, schema[name].foreignKeys, key) then ColumnValues(rows, column) else {}
    {
      var values := ColumnValues(rows, column);
      if values == {} {
        return;
      }
      var own := Column(name, column);
      collected := collected[own := Lookup(collected, own) + values];
      var fks := schema[name].foreignKeys;
      assert fks[..0] == [];
      for i := 0 to |fks|
        invariant forall key :: Lookup(collected, key) == Lookup(old(collected), key)
                    + if Feeds(name, column, fks[..i], key) then values else {}
      {
        assert fks[..i+1] == fks[..i] + [fks[i]];
        if fks[i].column == column {
          var parent := Referenced(fks[i].parentTable, fks[i].parentColumn);
          collected := collected[parent := Lookup(collected, parent) + values];
        }
      }
      assert fks[..|fks|] == fks;
    }

    /** `_record_collected`: index the rows of one table. */
    method RecordCollected(name: string, rows: set<Row>)
      requires name in schema && forall row :: row in rows ==> row.table == name
      modifies this`collected
      ensures forall key :: Lookup(collected, key) == Lookup(old(collected), key) + Contributed(schema, rows, key)
    {
      var table := schema[name];
      var columns := table.columns;
      for i := 0 to |columns|
        invariant forall key :: Lookup(collected, key) == Lookup(old(collected), key) + Through(table, name, rows, columns[..i], key)
      {
        assert columns[..i+1] == columns[..i] + [columns[i]];
        forall key { ThroughOneMore(table, name, rows, columns[..i], columns[i], key); }
        if columns[i] !in table.indexed {
          continue;
        }
        RecordColumn(name, rows, columns[i]);
      }
      assert columns[..|columns|] == columns;
      forall key { ThroughAllColumns(schema, name, rows, key); }
    }

    /** The collected rows are among those the index selects. */
    ghost predicate Selected() reads this {
      forall n :: n in rowsByTable ==> n in schema && rowsByTable[n] <= Select(schema, db, tenant, n, collected)
    }

    /** Replace a table's rows by a larger selection and index them. */
    method Keep(name: string, rows: set<Row>)
      requires Valid() && Selected() && name in schema && rows != {}
      requires rows == Select(schema, db, tenant, name, collected)
      modifies this
      ensures Valid() && Selected()
      ensures Rows() == old(Rows()) + rows
    {
      ghost var before, index := Rows(), collected;
      UnionReplaced(rowsByTable, name, rows);
      rowsByTable := rowsByTable[name := rows];
      RecordCollected(name, rows);
      forall key ensures Lookup(collected, key) == Contributed(schema, Rows(), key) {
        ContributedUnion(schema, before, rows, key);
      }
      forall n | n in rowsByTable ensures n in schema && rowsByTable[n] <= Select(schema, db, tenant, n, collected) {
        SelectGrows(schema, db, tenant, n, index, before, collected, Rows());
      }
    }

    /** One table of one pass: query it, and keep the rows when their number has changed. Since
        selection only grows, an unchanged number means unchanged rows. */
    method Visit(name: string) returns (added: bool)
      requires Valid() && Selected() && name in schema
      modifies this
      ensures Valid() && Selected()
      ensures Rows() == old(Rows()) + Select(schema, db, tenant, name, old(collected))
      ensures !added ==> rowsByTable == old(rowsByTable) && collected == old(collected)
                         && Known(name) == Select(schema, db, tenant, name, collected)
    {
      var rows := Select(schema, db, tenant, name, collected);
      if rows == {} {
        return false;
      }
      if name in rowsByTable && |rowsByTable[name]| == |rows| {
        EqualSize(rowsByTable[name], rows);
        return false;
      }
      Keep(name, rows);
      added := true;
    }

    /** One pass over the tables. */
    method Pass(tables: seq<string>, ghost closed: set<Row>) returns (added: bool)
      requires Valid() && Selected() && forall name :: name in schema <==> name in tables
      requires Closed(schema, db, tenant, closed) && Rows() <= closed
      modifies this
      ensures Valid() && Selected() && Rows() <= closed
      ensures !added ==> forall j :: 0 <= j < |tables| ==> Known(tables[j]) == Select(schema, db, tenant, tables[j], collected)
    {
      added := false;
      for i := 0 to |tables|
        invariant Valid() && Selected() && Rows() <= closed
        invariant !added ==> forall j :: 0 <= j < i ==> Known(tables[j]) == Select(schema, db, tenant, tables[j], collected)
      {
        assert tables[i] in tables;
        SelectStaysInside(schema, db, tenant, tables[i], collected, Rows(), closed);
        var more := Visit(tables[i]);
        added := added || more;
      }
    }

    /** The passes. `settled` tells whether the last one added nothing. Whatever happens, only rows at
        the end of a chain of relatives are collected; if it settled, all of them are, and they are the least
        closed set. */
    method Sweep(tables: seq<string>) returns (settled: bool)
      requires rowsByTable == map[] && collected == map[]
      requires forall name :: name in schema <==> name in tables
      modifies this
      ensures Valid()
      ensures forall closed :: Closed(schema, db, tenant, closed) ==> Rows() <= closed
      ensures settled ==> Closed(schema, db, tenant, Rows())
      ensures Rows() <= AllReached(schema, db, tenant)
      ensures settled ==> Rows() == AllReached(schema, db, tenant)
      ensures forall row :: row in Rows() ==> row.table in schema && BelongsTo(schema, tenant, row, Rows())
    {
      assert Rows() == {};
      ghost var all := AllReached(schema, db, tenant);
      ReachedIsClosed(schema, db, tenant);
      forall closed | Closed(schema, db, tenant, closed) ensures all <= closed { ReachedIsLeast(schema, db, tenant, closed); }
      hide AllReached, Closed, BelongsTo, Select;
      for pass := 0 to PASSES
        invariant Valid() && Selected() && Rows() <= all
      {
        var added := Pass(tables, all);
        if !added {
          FixpointIsClosed(tables);
          SelectedBelong();
          return true;
        }
      }
      SelectedBelong();
      settled := false;
    }

    lemma SelectedBelong()
      requires Valid() && Selected()
      ensures forall row :: row in Rows() ==> row.table in schema && BelongsTo(schema, tenant, row, Rows())
    {
    }

    lemma FixpointIsClosed(tables: seq<string>)
      requires Valid() && forall name :: name in schema <==> name in tables
      requires forall j :: 0 <= j < |tables| ==> tables[j] in schema && Known(tables[j]) == Select(schema, db, tenant, tables[j], collected)
      ensures Closed(schema, db, tenant, Rows())
    {
      forall row | row in db && row.table in schema && BelongsTo(schema, tenant, row, Rows()) ensures row in Rows() {
        var c :| Indexes(schema, c, Rows()) && Belongs(schema[row.table], tenant, row, c);
        IndexesAgree(schema, tenant, row, c, collected, Rows());
        assert row.table in tables;
        assert row in Known(row.table);
      }
    }
  }

  lemma EqualSize(small: set<Row>, large: set<Row>)
    requires small <= large && |small| == |large|
    ensures small == large
  {
    assert |large - small| == |large| - |small|;
    assert large == small + (large - small);
  }
}
