/**
 * Nodes, tables and records: the topology the engine builds before pairing.
 * A table's records are a sequence and a record is identified by its index in
 * it, which plays the part of the record pointer the engine shares between
 * mappings; a mapping is identified by its index in the synch's mapping list.
 */
module Topology {
  import opened Values
  import opened Wrappers
  import opened Store

  /** One endpoint of a mapping as configured: node name, database, table, key column. */
  datatype NodeConfig = NodeConfig(name: string, database: string, table: string, key: string)

  /** A row of a table snapshot with the mappings it is active in (by index). */
  datatype Record = Record(data: Row, activeIn: seq<nat>, pairedIn: seq<nat>)

  /** A table snapshot, identified by `"<database>.<table>"`. */
  datatype Table = Table(id: string, db: Database, name: string, records: seq<Record>, oldRecords: seq<Record>)

  /** A configured node bound to its database and to the id of its table. */
  datatype Node = Node(cfg: NodeConfig, db: Database, tableId: string)

  function TableId(dbName: string, tableName: string): string
  {
    dbName + "." + tableName
  }

  /** Fresh records, one per selected row, not yet active anywhere. */
  function MapToRecords(rows: seq<Row>): (rs: seq<Record>)
    ensures |rs| == |rows|
    ensures forall k :: 0 <= k < |rs| ==> rs[k].data == rows[k] && rs[k].activeIn == [] && rs[k].pairedIn == []
  {
    seq(|rows|, k requires 0 <= k < |rows| => Record(rows[k], [], []))
  }

  /** Index of the first record holding `row`, if any. */
  function FindRecord(records: seq<Record>, row: Row): (r: Option<nat>)
    ensures r.Some? ==> r.value < |records| && records[r.value].data == row
    ensures r.Some? ==> forall j :: 0 <= j < r.value ==> records[j].data != row
    ensures r.None? ==> forall j :: 0 <= j < |records| ==> records[j].data != row
    decreases |records|
  {
    if records == [] then None
    else if records[0].data == row then Some(0)
    else match FindRecord(records[1..], row)
      case Some(j) => Some(j + 1)
      case None => None
  }

  /**
   * Looks the row up among the records, registering a new record when it is
   * absent, and appends mapping `m` to that record's `activeIn`. Returns the new
   * records and the record's index.
   */
  function Activate(records: seq<Record>, row: Row, m: nat): (r: (seq<Record>, nat))
    ensures r.1 < |r.0| && r.0[r.1].data == row
    ensures r.1 < |records| ==> r.0 == records[r.1 := records[r.1].(activeIn := records[r.1].activeIn + [m])]
    ensures r.1 == |records| ==> r.0 == records + [Record(row, [m], [])]
    ensures r.1 == |records| <==> forall j :: 0 <= j < |records| ==> records[j].data != row
  {
    match FindRecord(records, row)
    case Some(i) => (records[i := records[i].(activeIn := records[i].activeIn + [m])], i)
    case None => (records + [Record(row, [m], [])], |records|)
  }

  /** `Activate` for each row in order; returns the records and the indices, one per row. */
  function ActivateAll(records: seq<Record>, rows: seq<Row>, m: nat): (r: (seq<Record>, seq<nat>))
    ensures |r.1| == |rows| && |r.0| >= |records|
    decreases |rows|
  {
    if rows == [] then (records, [])
    else
      var (rs, ids) := ActivateAll(records, rows[..|rows| - 1], m);
      var (rs', id) := Activate(rs, rows[|rows| - 1], m);
      (rs', ids + [id])
  }

  /**
   * After `ActivateAll`, the k-th index points at a record holding the k-th row and
   * active in `m`; the records there before keep their rows and backlinks, and at
   * most gain backlinks.
   */
  lemma {:induction false} ActivateAllSpec(records: seq<Record>, rows: seq<Row>, m: nat)
    ensures var r := ActivateAll(records, rows, m);
      forall k :: 0 <= k < |rows| ==> r.1[k] < |r.0| && r.0[r.1[k]].data == rows[k] && m in r.0[r.1[k]].activeIn
    ensures var r := ActivateAll(records, rows, m);
      forall j :: 0 <= j < |records| ==>
        r.0[j].data == records[j].data && r.0[j].pairedIn == records[j].pairedIn && records[j].activeIn <= r.0[j].activeIn
    decreases |rows|
  {
    if rows != [] {
      var init := rows[..|rows| - 1];
      ActivateAllSpec(records, init, m);
      var before := ActivateAll(records, init, m);
      var step := Activate(before.0, rows[|rows| - 1], m);
      var r := ActivateAll(records, rows, m);
      assert r == (step.0, before.1 + [step.1]);
      forall k | 0 <= k < |rows|
        ensures r.1[k] < |r.0| && r.0[r.1[k]].data == rows[k] && m in r.0[r.1[k]].activeIn
      {
        if k < |rows| - 1 {
          assert r.1[k] == before.1[k] && init[k] == rows[k];
          var j := before.1[k];
          assert before.0[j].activeIn <= r.0[j].activeIn;
        }
      }
    }
  }
}
