/**
 * The inventory-operations table and an operation object whose `Save`
 * assigns the document reference in place before writing the row.
 */
module Operations {
  import opened Wrappers
  import opened Records
  import opened Reference

  /** `rows` with the row whose id is `r.id` overwritten by `r`. */
  function Replaced(rows: seq<OperationRecord>, r: OperationRecord): (s: seq<OperationRecord>)
    ensures |s| == |rows|
    ensures forall i :: 0 <= i < |rows| ==> s[i] == if rows[i].id == r.id then r else rows[i]
  {
    if rows == [] then []
    else [if rows[0].id == r.id then r else rows[0]] + Replaced(rows[1..], r)
  }

  /**
   * The number ending the previous document in scope: 0 for an empty scope,
   * else the integer ending the highest-id operation's reference, falling back
   * to that operation's id.
   */
  method LastNumberIn(scope: seq<OperationRecord>) returns (lastNumber: int)
    ensures scope == [] ==> lastNumber == 0
    ensures forall h :: HighestIn(h, scope) ==>
              lastNumber == if NumberOf(h.reference).Some? then NumberOf(h.reference).value else h.id
    // Among rows sharing the highest id, the earliest one is read.
    ensures scope != [] ==>
              var h := Latest(scope).value;
              lastNumber == if NumberOf(h.reference).Some? then NumberOf(h.reference).value else h.id
  {
    lastNumber := 0;
    if scope != [] {
      var lastRow := Latest(scope).value;
      var parsed := NumberOf(lastRow.reference);
      if parsed.Some? {
        lastNumber := parsed.value;
      } else {
        lastNumber := lastRow.id;
      }
    }
  }

  /**
   * The reference-number computation of a save, step by step: the operation
   * code, the warehouse code, the scope query, the last number (with its
   * fallback to the last row's id) and the padded next number.
   */
  method GenerateReference(rows: seq<OperationRecord>, opType: string, source: Option<Location>,
                           destination: Option<Location>, year: int) returns (reference: string)
    ensures reference == ReferenceFor(rows, opType, source, destination, year)
    ensures reference != ""
  {
    var opCode := OperationCode(opType);
    var warehouse := WarehouseForReference(opType, source, destination);
    var whCode := WarehouseCode(warehouse);
    var scope := Scope(rows, opType, year, warehouse);
    var lastNumber := LastNumberIn(scope);
    assert lastNumber == LastNumber(rows, opType, year, warehouse);
    var numStr := Padded(lastNumber + 1);
    reference := ReferencePrefix(whCode, opCode, year) + numStr;
    assert |numStr| >= 4;
  }

  /**
   * The stored operations, in insertion order, and the auto-increment
   * counter that hands out primary keys.
   */
  class OperationTable {
    var rows: seq<OperationRecord>
    var lastId: nat

    /** Primary keys are positive, distinct and never above the counter. */
    ghost predicate Valid()
      reads this
    {
      && (forall i, j :: 0 <= i < j < |rows| ==> rows[i].id != rows[j].id)
      && (forall r :: r in rows ==> 0 < r.id <= lastId)
    }

    predicate HasId(id: nat)
      reads this
    {
      exists r :: r in rows && r.id == id
    }

    constructor ()
      ensures Valid() && rows == [] && lastId == 0
    {
      rows := [];
      lastId := 0;
    }

    /** INSERT: the row gets the next primary key. */
    method Insert(r: OperationRecord) returns (id: nat)
      requires Valid()
      modifies this
      ensures Valid()
      ensures id == old(lastId) + 1 && lastId == id
      ensures rows == old(rows) + [r.(id := id)]
    {
      lastId := lastId + 1;
      id := lastId;
      rows := rows + [r.(id := id)];
    }

    /** UPDATE ... WHERE id = r.id: the stored row takes all of r's values. */
    method Update(r: OperationRecord)
      requires Valid() && HasId(r.id)
      modifies this
      ensures Valid() && lastId == old(lastId)
      ensures rows == Replaced(old(rows), r)
      ensures HasId(r.id)
    {
      rows := Replaced(rows, r);
      ghost var k :| 0 <= k < |old(rows)| && old(rows)[k].id == r.id;
      assert rows[k] == r;
    }
  }

  /** An inventory operation object as held in memory before and after saving. */
  class InventoryOperation {
    var pk: Option<nat>
    var opType: string
    var status: string
    var source: Option<Location>
    var destination: Option<Location>
    var createdYear: Option<int>
    var reference: string

    /** A new, unsaved operation; its status starts as "DRAFT". */
    constructor (opType: string, source: Option<Location>, destination: Option<Location>, reference: string)
      ensures this.opType == opType && this.source == source && this.destination == destination
      ensures this.reference == reference && status == "DRAFT"
      ensures pk.None? && createdYear.None?
    {
      pk := None;
      this.opType := opType;
      status := "DRAFT";
      this.source := source;
      this.destination := destination;
      createdYear := None;
      this.reference := reference;
    }

    /** The row this object is written as, under primary key `id`. */
    function AsRecord(id: nat, year: int): OperationRecord
      reads this
    {
      OperationRecord(id, opType, status, source, destination, year, reference)
    }

    /**
     * Assign a reference when there is none, then write the object: insert it
     * when it has no primary key yet (stamping the creation year), else
     * overwrite its stored row. `year` is the current year.
     */
    method Save(table: OperationTable, year: int)
      requires table.Valid()
      requires pk.Some? ==> table.HasId(pk.value) && createdYear.Some?
      modifies this, table
      ensures table.Valid()
      ensures old(reference) != "" ==> reference == old(reference)
      ensures old(reference) == "" ==> reference == ReferenceFor(old(table.rows), opType, source, destination, year)
      ensures reference != ""
      ensures opType == old(opType) && status == old(status)
      ensures source == old(source) && destination == old(destination)
      ensures old(pk).None? ==>
                && pk == Some(old(table.lastId) + 1) && createdYear == Some(year)
                && table.rows == old(table.rows) + [AsRecord(pk.value, year)]
      ensures old(pk).Some? ==>
                && pk == old(pk) && createdYear == old(createdYear)
                && table.rows == Replaced(old(table.rows), AsRecord(pk.value, createdYear.value))
      ensures pk.Some? && createdYear.Some? && table.HasId(pk.value)
      ensures table.lastId == if old(pk).None? then pk.value else old(table.lastId)
    {
      if reference == "" {
        reference := GenerateReference(table.rows, opType, source, destination, year);
      }
      if pk.None? {
        var id := table.Insert(AsRecord(0, year));
        pk := Some(id);
        createdYear := Some(year);
        assert table.rows[|table.rows| - 1] == AsRecord(id, year);
      } else {
        table.Update(AsRecord(pk.value, createdYear.value));
      }
    }
  }
}
