/** The exporter as a whole: when the script of a settled sweep loads. */
module SeedExport {
  import opened SeedSchema
  import opened SeedSweep
  import opened SeedScript

  /** What `SeedSweep.Exporter.Sweep` leaves when it stops by adding nothing. */
  ghost predicate Settled(schema: Schema, db: set<Row>, tenant: Value, rows: set<Row>) {
    && Closed(schema, db, tenant, rows)
    && forall row :: row in rows ==> row in db && row.table in schema && BelongsTo(schema, tenant, row, rows)
  }

  /** Foreign keys are indexed columns that refer to primary key columns, of exported tables or others. */
  ghost predicate WellKeyed(schema: Schema) {
    forall name, fk :: name in schema && fk in schema[name].foreignKeys ==>
      && fk.column in schema[name].columns && fk.column in schema[name].indexed
      && (fk.parentTable in schema ==> fk.parentColumn in schema[fk.parentTable].primaryKey)
  }

  /** The reference has a parent that is not another tenant's. */
  ghost predicate OwnParent(schema: Schema, db: set<Row>, tenant: Value, row: Row, fk: ForeignKey) {
    exists parent :: parent in db && parent.table in schema && RefersTo(row, fk, parent) && !Foreign(schema[parent.table], tenant, parent)
  }

  /** The file lists exactly the given rows. */
  ghost predicate Lists(written: seq<Row>, rows: set<Row>) { forall row :: row in written <==> row in rows }

  lemma ParentIsCollectedIff(schema: Schema, db: set<Row>, tenant: Value, rows: set<Row>, row: Row, fk: ForeignKey, parent: Row)
    requires Settled(schema, db, tenant, rows) && WellKeyed(schema) && row in rows && SetsKey(schema, row, fk)
    requires parent in db && parent.table in schema && RefersTo(row, fk, parent)
    ensures parent in rows <==> !Foreign(schema[parent.table], tenant, parent)
  {
    assert fk.column in schema[row.table].columns && fk.parentColumn in schema[fk.parentTable].primaryKey;
    hide Closed, BelongsTo, WellKeyed, Foreign;
    ParentCollectedIff(schema, db, tenant, rows, row, fk, parent);
  }

  /** In a settled sweep the parents that are not another tenant's are exactly the collected ones. */
  lemma OwnParentIff(schema: Schema, db: set<Row>, tenant: Value, rows: set<Row>, row: Row, fk: ForeignKey)
    requires Settled(schema, db, tenant, rows) && WellKeyed(schema) && row in rows && SetsKey(schema, row, fk)
    ensures OwnParent(schema, db, tenant, row, fk) <==> exists parent :: parent in rows && RefersTo(row, fk, parent)
  {
    forall parent | parent in rows ensures parent in db && parent.table in schema {}
    hide Settled, WellKeyed, SetsKey, RefersTo, Foreign;
    if parent :| parent in rows && RefersTo(row, fk, parent) {
      ParentIsCollectedIff(schema, db, tenant, rows, row, fk, parent);
    }
    if parent :| parent in db && parent.table in schema && RefersTo(row, fk, parent) && !Foreign(schema[parent.table], tenant, parent) {
      ParentIsCollectedIff(schema, db, tenant, rows, row, fk, parent);
    }
  }

  // ----- One reference -----

  lemma DeferredIff(schema: Schema, position: map<string, nat>, rowsByTable: RowsByTable, row: Row, c: string)
    requires row.table in schema && row.table in position && row in RowsOf(rowsByTable, row.table) && c in row.cells
    ensures var t := schema[row.table];
            c in DeferredOf(DeferralOf(schema, position, rowsByTable), row.table) <==>
              SomeLeadsLater(t.foreignKeys, c, t.nullable, position, position[row.table])
  {
    hide SomeLeadsLater;
    assert AnySet(RowsOf(rowsByTable, row.table), c);
  }

  lemma DeferredHasRow(schema: Schema, position: map<string, nat>, rowsByTable: RowsByTable, name: string, c: string) returns (row: Row)
    requires c in DeferredOf(DeferralOf(schema, position, rowsByTable), name)
    ensures name in position && name in schema && row in RowsOf(rowsByTable, name) && c in row.cells
  {
    assert AnySet(RowsOf(rowsByTable, name), c);
    row :| row in RowsOf(rowsByTable, name) && c in row.cells;
  }

  lemma {:induction false} TableRowIsWritten(tables: seq<string>, rowsByTable: RowsByTable, name: string, row: Row)
    requires name in tables && row in RowsOf(rowsByTable, name)
    ensures row in AllRows(tables, rowsByTable)
    decreases |tables|
  {
    var init := tables[..|tables|-1];
    assert tables == init + [tables[|tables|-1]];
    if name in init { TableRowIsWritten(init, rowsByTable, name, row); }
  }

  /** Primary key columns are not deferred, so no row refers to a deferred column. */
  lemma KeysAreNotDeferred(schema: Schema, tables: seq<string>, rowsByTable: RowsByTable, position: map<string, nat>)
    requires WellKeyed(schema) && Tabled(schema, tables, rowsByTable) && Positions(tables, position)
    requires ValidRows(schema, DeferralOf(schema, position, rowsByTable), AllRows(tables, rowsByTable))
    ensures KeysStay(schema, DeferralOf(schema, position, rowsByTable), AllRows(tables, rowsByTable))
  {
    var d, written := DeferralOf(schema, position, rowsByTable), AllRows(tables, rowsByTable);
    hide DeferralOf, AllRows, DeferredOf, ValidEntries, RowsOf;
    forall row, fk | row in written && SetsKey(schema, row, fk) ensures fk.parentColumn !in DeferredOf(d, fk.parentTable) {
      if fk.parentColumn in DeferredOf(d, fk.parentTable) {
        var parent := DeferredHasRow(schema, position, rowsByTable, fk.parentTable, fk.parentColumn);
        TableRowIsWritten(tables, rowsByTable, fk.parentTable, parent);
        RowOfTable(schema, tables, rowsByTable, fk.parentTable, parent);
        KeyOfWritten(schema, d, written, parent, fk.parentColumn);
        assert false;
      }
    }
  }

  lemma KeyOfWritten(schema: Schema, d: Deferral, written: seq<Row>, row: Row, c: string)
    requires ValidRows(schema, d, written) && row in written && c in schema[row.table].primaryKey
    ensures c !in DeferredOf(d, row.table)
  {
    assert ValidRow(schema, d, row);
  }

  lemma RowOfTable(schema: Schema, tables: seq<string>, rowsByTable: RowsByTable, name: string, row: Row)
    requires Tabled(schema, tables, rowsByTable) && row in RowsOf(rowsByTable, name)
    ensures row.table == name
  {
  }

  /** The reference is set late enough: by an update, or after the parent's table, or after the parent in
      its own table. */
  ghost predicate InOrder(schema: Schema, position: map<string, nat>, written: seq<Row>, k: nat, fk: ForeignKey)
    requires k < |written| && written[k].table in schema && written[k].table in position
  {
    var row, t, own := written[k], schema[written[k].table], position[written[k].table];
    || SomeLeadsLater(t.foreignKeys, fk.column, t.nullable, position, own)
    || (fk.parentTable in position && position[fk.parentTable] < own)
    || (fk.parentTable == row.table && Within(written, k, fk, k + 1))
  }

  lemma OwnParentIsWritten(schema: Schema, db: set<Row>, tenant: Value, rows: set<Row>, written: seq<Row>, k: nat, fk: ForeignKey)
    requires Settled(schema, db, tenant, rows) && WellKeyed(schema) && Lists(written, rows)
    requires k < |written| && SetsKey(schema, written[k], fk)
    ensures OwnParent(schema, db, tenant, written[k], fk) <==> Within(written, k, fk, |written|)
  {
    assert written[k] in written;
    hide Settled, OwnParent, WellKeyed, SetsKey, RefersTo;
    OwnParentIff(schema, db, tenant, rows, written[k], fk);
    if parent :| parent in rows && RefersTo(written[k], fk, parent) {
      var j :| 0 <= j < |written| && written[j] == parent;
    }
    if Within(written, k, fk, |written|) {
      var j :| 0 <= j < |written| && RefersTo(written[k], fk, written[j]);
      assert written[j] in rows;
    }
  }

  /** Where a written parent of an insert stands. */
  lemma OrderIff(schema: Schema, tables: seq<string>, position: map<string, nat>, written: seq<Row>, k: nat, fk: ForeignKey)
    requires Positions(tables, position) && TableByTable(position, written)
    requires k < |written| && written[k].table in schema && Within(written, k, fk, |written|)
    ensures var t, own := schema[written[k].table], position[written[k].table];
            InOrder(schema, position, written, k, fk) <==>
              SomeLeadsLater(t.foreignKeys, fk.column, t.nullable, position, own) || Within(written, k, fk, k + 1)
  {
    hide SomeLeadsLater, Positions;
    var j :| 0 <= j < |written| && RefersTo(written[k], fk, written[j]);
    if position[written[j].table] < position[written[k].table] {
      hide TableByTable;
      EarlierIndex(position, written, j, k);
    }
    if Within(written, k, fk, k + 1) {
      var i :| 0 <= i < k + 1 && RefersTo(written[k], fk, written[i]);
      assert position[written[i].table] <= position[written[k].table];
      hide TableByTable;
      if written[i].table != written[k].table { PositionsDiffer(tables, position, written[i].table, written[k].table); }
    }
  }

  /** A reference loads exactly when it has a parent that is not another tenant's and is set late enough. */
  lemma ReferenceOkIff(schema: Schema, db: set<Row>, tenant: Value, rows: set<Row>, tables: seq<string>, rowsByTable: RowsByTable,
                       position: map<string, nat>, written: seq<Row>, k: nat, fk: ForeignKey)
    requires Settled(schema, db, tenant, rows) && WellKeyed(schema) && Lists(written, rows)
    requires Positions(tables, position) && TableByTable(position, written)
    requires k < |written| && SetsKey(schema, written[k], fk) && written[k] in RowsOf(rowsByTable, written[k].table)
    ensures ReferenceOk(DeferralOf(schema, position, rowsByTable), written, k, fk) <==>
              OwnParent(schema, db, tenant, written[k], fk) && InOrder(schema, position, written, k, fk)
  {
    DeferredIff(schema, position, rowsByTable, written[k], fk.column);
    OwnParentIsWritten(schema, db, tenant, rows, written, k, fk);
    if Within(written, k, fk, |written|) { OrderIff(schema, tables, position, written, k, fk); }
    hide Settled, WellKeyed, Lists, Positions, TableByTable, SetsKey, RowsOf, DeferralOf, OwnParent, InOrder, SomeLeadsLater, RefersTo;
  }

  // ----- The whole file -----

  /** Row k loads: no column it sets has two foreign keys to later tables, and each of its references has a
      parent that is not another tenant's and is set late enough. */
  ghost predicate Arrives(schema: Schema, db: set<Row>, tenant: Value, position: map<string, nat>, written: seq<Row>, k: nat)
    requires k < |written| && written[k].table in schema && written[k].table in position
  {
    && OneLater(schema[written[k].table], position, written[k])
    && forall fk :: SetsKey(schema, written[k], fk) ==>
         OwnParent(schema, db, tenant, written[k], fk) && InOrder(schema, position, written, k, fk)
  }

  /** The rows `export` writes for a settled sweep. */
  ghost predicate Writes(schema: Schema, db: set<Row>, tenant: Value, rows: set<Row>, tables: seq<string>, rowsByTable: RowsByTable,
                         position: map<string, nat>)
  {
    && Settled(schema, db, tenant, rows) && Tabled(schema, tables, rowsByTable) && Positions(tables, position)
    && ValidRows(schema, DeferralOf(schema, position, rowsByTable), AllRows(tables, rowsByTable))
    && Lists(AllRows(tables, rowsByTable), rows)
  }

  /** Every written row arrives. */
  ghost predicate AllArrive(schema: Schema, db: set<Row>, tenant: Value, position: map<string, nat>, written: seq<Row>) {
    forall k :: 0 <= k < |written| ==>
      written[k].table in schema && written[k].table in position && Arrives(schema, db, tenant, position, written, k)
  }

  lemma ArrivesIff(schema: Schema, db: set<Row>, tenant: Value, rows: set<Row>, tables: seq<string>, rowsByTable: RowsByTable,
                   position: map<string, nat>, written: seq<Row>, k: nat)
    requires Settled(schema, db, tenant, rows) && WellKeyed(schema) && Lists(written, rows)
    requires Positions(tables, position) && TableByTable(position, written)
    requires k < |written| && written[k].table in schema && written[k] in RowsOf(rowsByTable, written[k].table)
    ensures RowOk(schema, DeferralOf(schema, position, rowsByTable), written, k) <==> Arrives(schema, db, tenant, position, written, k)
  {
    PresentDistinctIff(schema, position, rowsByTable, written[k]);
    hide Settled, WellKeyed, Lists, Positions, SetsKey, RowsOf, DeferralOf, OwnParent, InOrder, ReferenceOk, OneLater, Present, SeedScript.Distinct;
    forall fk | SetsKey(schema, written[k], fk)
      ensures ReferenceOk(DeferralOf(schema, position, rowsByTable), written, k, fk) <==>
                OwnParent(schema, db, tenant, written[k], fk) && InOrder(schema, position, written, k, fk)
    {
      ReferenceOkIff(schema, db, tenant, rows, tables, rowsByTable, position, written, k, fk);
    }
  }

  lemma WrittenPlaced(schema: Schema, tables: seq<string>, rowsByTable: RowsByTable, position: map<string, nat>)
    requires Tabled(schema, tables, rowsByTable) && Positions(tables, position)
    ensures var written := AllRows(tables, rowsByTable);
            TableByTable(position, written) && forall k :: 0 <= k < |written| ==>
              written[k].table in schema && written[k].table in position && written[k] in RowsOf(rowsByTable, written[k].table)
  {
    var written := AllRows(tables, rowsByTable);
    assert tables[..|tables|] == tables;
    EarlierTableFirst(schema, tables, rowsByTable, position, |tables|);
    AllRowsKnown(schema, tables, rowsByTable);
    hide AllRows, TableByTable, RowsOf;
    forall k | 0 <= k < |written|
      ensures written[k].table in schema && written[k].table in position && written[k] in RowsOf(rowsByTable, written[k].table)
    {
      assert written[k] in written;
      RowIsInItsTable(schema, tables, rowsByTable, written[k]);
    }
  }

  lemma AllArriveIff(schema: Schema, db: set<Row>, tenant: Value, rows: set<Row>, tables: seq<string>,
                     rowsByTable: RowsByTable, position: map<string, nat>, written: seq<Row>)
    requires Settled(schema, db, tenant, rows) && WellKeyed(schema) && Lists(written, rows)
    requires Tabled(schema, tables, rowsByTable) && Positions(tables, position) && written == AllRows(tables, rowsByTable)
    ensures AllArrive(schema, db, tenant, position, written) <==>
              forall k :: 0 <= k < |written| ==> RowOk(schema, DeferralOf(schema, position, rowsByTable), written, k)
  {
    WrittenPlaced(schema, tables, rowsByTable, position);
    hide Settled, WellKeyed, Lists, Positions, RowsOf, DeferralOf, AllRows, TableByTable, Arrives, RowOk, Tabled;
    forall k | 0 <= k < |written|
      ensures RowOk(schema, DeferralOf(schema, position, rowsByTable), written, k) <==> Arrives(schema, db, tenant, position, written, k)
    {
      ArrivesIff(schema, db, tenant, rows, tables, rowsByTable, position, written, k);
    }
  }

  /** The script of a settled sweep loads exactly the collected rows if and only if every row arrives. */
  lemma SweptExportLoadsIff(schema: Schema, db: set<Row>, tenant: Value, rows: set<Row>, tables: seq<string>,
                            rowsByTable: RowsByTable, position: map<string, nat>)
    requires WellKeyed(schema) && Writes(schema, db, tenant, rows, tables, rowsByTable, position)
    ensures var d, written := DeferralOf(schema, position, rowsByTable), AllRows(tables, rowsByTable);
            Run(schema, map[], Script(schema, d, written)) ==
              if AllArrive(schema, db, tenant, position, written) then Ok(Exported(schema, d, written)) else Rejected
  {
    var d, written := DeferralOf(schema, position, rowsByTable), AllRows(tables, rowsByTable);
    assert Tabled(schema, tables, rowsByTable) && Positions(tables, position) && ValidRows(schema, d, written);
    hide Settled, WellKeyed, Lists, Positions, DeferralOf, AllRows, AllArrive, KeysStay, RowOk, Loadable, Run, Script, Tabled, ValidRows, Exported;
    KeysAreNotDeferred(schema, tables, rowsByTable, position);
    AllArriveIff(schema, db, tenant, rows, tables, rowsByTable, position, written);
    LoadableIff(schema, d, written);
    ScriptLoadsExactly(schema, d, written);
  }

  // ----- Arranged tables -----

  ghost predicate AllOwnParents(schema: Schema, db: set<Row>, tenant: Value, rows: set<Row>) {
    forall row, fk :: row in rows && SetsKey(schema, row, fk) ==> OwnParent(schema, db, tenant, row, fk)
  }

  /** The tables are ordered so that only the parents decide: no reference within a table, later tables
      referred to from nullable columns only, and no column deferred twice. */
  ghost predicate Arranged(schema: Schema, position: map<string, nat>, rows: set<Row>) {
    forall row :: row in rows ==>
      && row.table in schema && row.table in position && OneLater(schema[row.table], position, row)
      && forall fk :: SetsKey(schema, row, fk) && fk.parentTable in position ==> ArrangedKey(schema, position, row, fk)
  }

  predicate ArrangedKey(schema: Schema, position: map<string, nat>, row: Row, fk: ForeignKey)
    requires row.table in schema && row.table in position && fk.parentTable in position
  {
    && fk.parentTable != row.table
    && (position[fk.parentTable] > position[row.table] ==> fk.column in schema[row.table].nullable)
  }

  lemma ArrangedIsInOrder(schema: Schema, tables: seq<string>, position: map<string, nat>, written: seq<Row>, k: nat, fk: ForeignKey)
    requires Positions(tables, position) && TableByTable(position, written) && k < |written| && Within(written, k, fk, |written|)
    requires SetsKey(schema, written[k], fk) && (fk.parentTable in position ==> ArrangedKey(schema, position, written[k], fk))
    ensures InOrder(schema, position, written, k, fk)
  {
    var j :| 0 <= j < |written| && RefersTo(written[k], fk, written[j]);
    var t, own := schema[written[k].table], position[written[k].table];
    PositionsDiffer(tables, position, fk.parentTable, written[k].table);
    if position[fk.parentTable] > own {
      assert LeadsLater(fk, fk.column, t.nullable, position, own);
    }
  }

  lemma ArrangedRowArrives(schema: Schema, db: set<Row>, tenant: Value, rows: set<Row>, tables: seq<string>,
                           position: map<string, nat>, written: seq<Row>, k: nat)
    requires Settled(schema, db, tenant, rows) && WellKeyed(schema) && Lists(written, rows) && Arranged(schema, position, rows)
    requires Positions(tables, position) && TableByTable(position, written) && k < |written|
    ensures written[k].table in schema && written[k].table in position
    ensures Arrives(schema, db, tenant, position, written, k) <==>
              forall fk :: SetsKey(schema, written[k], fk) ==> OwnParent(schema, db, tenant, written[k], fk)
  {
    assert written[k] in written && written[k] in rows;
    hide Settled, WellKeyed, Lists, Positions, TableByTable, OwnParent, InOrder, OneLater, ArrangedKey, SetsKey;
    forall fk | SetsKey(schema, written[k], fk) && OwnParent(schema, db, tenant, written[k], fk)
      ensures InOrder(schema, position, written, k, fk)
    {
      OwnParentIsWritten(schema, db, tenant, rows, written, k, fk);
      ArrangedIsInOrder(schema, tables, position, written, k, fk);
    }
  }

  lemma ArrangedArriveIff(schema: Schema, db: set<Row>, tenant: Value, rows: set<Row>, tables: seq<string>,
                          position: map<string, nat>, written: seq<Row>)
    requires Settled(schema, db, tenant, rows) && WellKeyed(schema) && Lists(written, rows) && Arranged(schema, position, rows)
    requires Positions(tables, position) && TableByTable(position, written)
    ensures AllArrive(schema, db, tenant, position, written) <==> AllOwnParents(schema, db, tenant, rows)
  {
    hide Settled, WellKeyed, Arranged, Positions, TableByTable, OwnParent, Arrives, SetsKey;
    forall k | 0 <= k < |written|
      ensures written[k] in rows && written[k].table in schema && written[k].table in position
      ensures Arrives(schema, db, tenant, position, written, k) <==>
                forall fk :: SetsKey(schema, written[k], fk) ==> OwnParent(schema, db, tenant, written[k], fk)
    {
      assert written[k] in written;
      ArrangedRowArrives(schema, db, tenant, rows, tables, position, written, k);
    }
    if AllArrive(schema, db, tenant, position, written) {
      forall row, fk | row in rows && SetsKey(schema, row, fk) ensures OwnParent(schema, db, tenant, row, fk) {
        var k :| 0 <= k < |written| && written[k] == row;
      }
    }
  }

  /** With its tables arranged, the script of a settled sweep loads if and only if every reference of a
      collected row has a parent that is not another tenant's. */
  lemma ArrangedExportLoadsIff(schema: Schema, db: set<Row>, tenant: Value, rows: set<Row>, tables: seq<string>,
                               rowsByTable: RowsByTable, position: map<string, nat>)
    requires WellKeyed(schema) && Writes(schema, db, tenant, rows, tables, rowsByTable, position) && Arranged(schema, position, rows)
    ensures var d, written := DeferralOf(schema, position, rowsByTable), AllRows(tables, rowsByTable);
            Run(schema, map[], Script(schema, d, written)) ==
              if AllOwnParents(schema, db, tenant, rows) then Ok(Exported(schema, d, written)) else Rejected
  {
    assert Tabled(schema, tables, rowsByTable) && Positions(tables, position);
    SweptExportLoadsIff(schema, db, tenant, rows, tables, rowsByTable, position);
    WrittenPlaced(schema, tables, rowsByTable, position);
    hide Settled, WellKeyed, Lists, Positions, DeferralOf, AllRows, AllArrive, AllOwnParents, Arranged, Run, Script, Tabled, ValidRows, Exported, TableByTable, RowsOf;
    ArrangedArriveIff(schema, db, tenant, rows, tables, position, AllRows(tables, rowsByTable));
  }

  // ----- Parents in tables that are not exported -----

  const EXCLUDED_TABLES: set<string> := {
    "agent_run", "authoring_event", "conversation_summary", "end_user", "execution_event", "flow_run", "flow_run_lock", "graph_state",
    "interaction", "llm_usage_ledger", "node_run", "onboarding_run", "rag_query_cache", "rag_usage_counter", "response_artifact",
    "run_failure", "semantic_answer_cache", "session", "sla_case", "step_run", "tool_run", "user_memory_profile"
  }

  /** `_exportable_tables`, apart from their order. */
  function Exportable(all: Schema): Schema { map name | name in all && name !in EXCLUDED_TABLES :: all[name] }

  lemma OwnedIsCollected(schema: Schema, db: set<Row>, tenant: Value, rows: set<Row>, row: Row)
    requires Settled(schema, db, tenant, rows) && row in db && row.table in schema && Owned(schema[row.table], tenant, row)
    ensures row in rows
  {
    hide Closed, BelongsTo;
    SeedSweep.CollectedIff(schema, db, tenant, rows, row);
  }

  /** One row of the tenant that refers to a row of an excluded table makes the whole script fail. */
  lemma ExcludedParentIsRejected(all: Schema, db: set<Row>, tenant: Value, rows: set<Row>, tables: seq<string>,
                                 rowsByTable: RowsByTable, position: map<string, nat>, row: Row, fk: ForeignKey)
    requires WellKeyed(Exportable(all)) && Writes(Exportable(all), db, tenant, rows, tables, rowsByTable, position)
    requires SetsKey(Exportable(all), row, fk) && fk.parentTable in EXCLUDED_TABLES
    requires row in rows || (row in db && Owned(all[row.table], tenant, row))
    ensures var d, written := DeferralOf(Exportable(all), position, rowsByTable), AllRows(tables, rowsByTable);
            Run(Exportable(all), map[], Script(Exportable(all), d, written)) == Rejected
  {
    var schema, written := Exportable(all), AllRows(tables, rowsByTable);
    assert fk.parentTable !in schema;
    SweptExportLoadsIff(schema, db, tenant, rows, tables, rowsByTable, position);
    if row !in rows { OwnedIsCollected(schema, db, tenant, rows, row); }
    hide Settled, WellKeyed, DeferralOf, AllRows, Run, Script, ValidRows, Exported, InOrder, OneLater, Exportable, SetsKey;
    var k :| 0 <= k < |written| && written[k] == row;
    assert !OwnParent(schema, db, tenant, row, fk);
  }
}
