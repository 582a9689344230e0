/**
 * Document references of inventory operations, `{whCode}/{opCode}/{year}/{seq}`,
 * as pure functions of the operation and of the operations already stored.
 * The operations class in module Operations assigns exactly this value.
 */
module Reference {
  import opened Wrappers
  import opened Text
  import opened Records

  const Receipt := "RECEIPT"
  const Delivery := "DELIVERY"
  const Internal := "INTERNAL"
  const Adjust := "ADJUST"

  /** The operation-type to operation-code table. */
  const OperationCodes: map<string, string> :=
    map[Receipt := "IN", Delivery := "OUT", Internal := "MOVE", Adjust := "ADJ"]

  /** The code of an operation type; an unknown type gets "UNK". */
  function OperationCode(opType: string): (code: string)
    ensures opType == Receipt ==> code == "IN"
    ensures opType == Delivery ==> code == "OUT"
    ensures opType == Internal ==> code == "MOVE"
    ensures opType == Adjust ==> code == "ADJ"
    ensures code == "UNK" <==> opType !in {Receipt, Delivery, Internal, Adjust}
  {
    if opType in OperationCodes then OperationCodes[opType] else "UNK"
  }

  /**
   * The warehouse that names an operation's document: a receipt's destination,
   * a delivery's or internal transfer's source, and for any other type the
   * source or else the destination. None when that location is absent.
   */
  function WarehouseForReference(opType: string, source: Option<Location>, destination: Option<Location>)
    : (wh: Option<Warehouse>)
    ensures wh.Some? ==>
              || (source.Some? && wh.value == source.value.warehouse)
              || (destination.Some? && wh.value == destination.value.warehouse)
    ensures opType == Receipt ==> wh == (if destination.Some? then Some(destination.value.warehouse) else None)
    ensures opType != Receipt && source.Some? ==> wh == Some(source.value.warehouse)
    ensures opType in {Delivery, Internal} && source.None? ==> wh.None?
    ensures opType !in {Receipt, Delivery, Internal} ==> (wh.None? <==> source.None? && destination.None?)
  {
    var loc :=
      if opType == Receipt then destination
      else if opType == Delivery then source
      else if opType == Internal then source
      else if source.Some? then source else destination;
    if loc.Some? then Some(loc.value.warehouse) else None
  }

  /** Whether a location lies in the given warehouse (compared by primary key). */
  predicate LocatedIn(loc: Option<Location>, w: Warehouse) {
    loc.Some? && loc.value.warehouse.id == w.id
  }

  /**
   * Whether a stored operation belongs to the numbering scope: same type, created
   * in the same year and, when a warehouse was resolved, with its source or its
   * destination inside that warehouse.
   */
  predicate InScope(r: OperationRecord, opType: string, year: int, wh: Option<Warehouse>) {
    r.opType == opType && r.createdYear == year &&
    (wh.Some? ==> LocatedIn(r.source, wh.value) || LocatedIn(r.destination, wh.value))
  }

  /** The stored operations in scope, in table order. */
  function Scope(rows: seq<OperationRecord>, opType: string, year: int, wh: Option<Warehouse>)
    : (s: seq<OperationRecord>)
    ensures forall r :: r in s <==> r in rows && InScope(r, opType, year, wh)
  {
    if rows == [] then []
    else
      var front := Scope(rows[..|rows| - 1], opType, year, wh);
      assert rows == rows[..|rows| - 1] + [rows[|rows| - 1]];
      var last := rows[|rows| - 1];
      if InScope(last, opType, year, wh) then front + [last] else front
  }

  /** The operation with the highest id (the earliest one among equal ids), if any. */
  function Latest(s: seq<OperationRecord>): (r: Option<OperationRecord>)
    ensures r.None? <==> s == []
    ensures r.Some? ==> r.value in s && forall x :: x in s ==> x.id <= r.value.id
  {
    if s == [] then None
    else
      var front := Latest(s[..|s| - 1]);
      assert s == s[..|s| - 1] + [s[|s| - 1]];
      if front.None? || s[|s| - 1].id > front.value.id then Some(s[|s| - 1]) else front
  }

  /**
   * The number the previous document in scope ends with: 0 for an empty scope,
   * else the parsed last segment of the highest-id operation's reference, or
   * that operation's id when the segment is not an integer.
   */
  function LastNumber(rows: seq<OperationRecord>, opType: string, year: int, wh: Option<Warehouse>): int {
    match Latest(Scope(rows, opType, year, wh))
    case None => 0
    case Some(h) =>
      match NumberOf(h.reference)
      case Some(n) => n
      case None => h.id
  }

  /** The warehouse segment: the warehouse's code, or "WH" when none resolved. */
  function WarehouseCode(wh: Option<Warehouse>): string {
    if wh.Some? then wh.value.code else "WH"
  }

  function ReferencePrefix(whCode: string, opCode: string, year: int): string {
    whCode + "/" + opCode + "/" + IntToString(year) + "/"
  }

  /** The sequence number spelled with at least four digits. */
  function Padded(n: int): string {
    ZFill(IntToString(n), 4)
  }

  /** The number a reference ends with, as the generator reads it back. */
  function NumberOf(reference: string): Option<int> {
    ParseInt(LastSegment(reference))
  }

  function FormatReference(whCode: string, opCode: string, year: int, n: int): string {
    ReferencePrefix(whCode, opCode, year) + Padded(n)
  }

  /** Reading the number back out of a formatted reference gives the number. */
  lemma FormatReferenceRoundTrip(whCode: string, opCode: string, year: int, n: int)
    ensures LastSegment(FormatReference(whCode, opCode, year, n)) == Padded(n)
    ensures NumberOf(FormatReference(whCode, opCode, year, n)) == Some(n)
  {
    PaddedNumberHasNoSlash(n);
    PaddedNumberRoundTrip(n);
    LastSegmentAfterSlash(whCode + "/" + opCode + "/" + IntToString(year), Padded(n));
  }

  /** A reference starts with its warehouse code and a '/'. */
  lemma ReferenceStartsWithCode(whCode: string, opCode: string, year: int, n: int)
    ensures
      var ref := FormatReference(whCode, opCode, year, n);
      |ref| > |whCode| && ref[..|whCode| + 1] == whCode + "/"
    ensures whCode == "WH" ==> FormatReference(whCode, opCode, year, n)[..3] == "WH/"
  {
    var head := whCode + "/";
    var ref := FormatReference(whCode, opCode, year, n);
    var withOp := head + opCode + "/";
    var prefix := ReferencePrefix(whCode, opCode, year);
    assert head <= withOp;
    assert withOp <= prefix;
    assert prefix <= ref;
  }

  /** The reference a save assigns to an operation that has none yet. */
  function ReferenceFor(rows: seq<OperationRecord>, opType: string, source: Option<Location>,
                        destination: Option<Location>, year: int): string
  {
    var wh := WarehouseForReference(opType, source, destination);
    FormatReference(WarehouseCode(wh), OperationCode(opType), year, LastNumber(rows, opType, year, wh) + 1)
  }

  /** A generated reference ends in one past the last number in its scope. */
  lemma ReferenceNumber(rows: seq<OperationRecord>, opType: string, source: Option<Location>,
                        destination: Option<Location>, year: int)
    ensures
      var wh := WarehouseForReference(opType, source, destination);
      NumberOf(ReferenceFor(rows, opType, source, destination, year)) == Some(LastNumber(rows, opType, year, wh) + 1)
  {
    var wh := WarehouseForReference(opType, source, destination);
    FormatReferenceRoundTrip(WarehouseCode(wh), OperationCode(opType), year, LastNumber(rows, opType, year, wh) + 1);
  }

  /** h belongs to s and every other operation of s has a smaller id. */
  predicate HighestIn(h: OperationRecord, s: seq<OperationRecord>) {
    h in s && forall x :: x in s ==> x.id < h.id || x == h
  }

  /** In an empty scope the sequence number is 1. */
  lemma EmptyScopeStartsAtOne(rows: seq<OperationRecord>, opType: string, source: Option<Location>,
                              destination: Option<Location>, year: int)
    requires Scope(rows, opType, year, WarehouseForReference(opType, source, destination)) == []
    ensures NumberOf(ReferenceFor(rows, opType, source, destination, year)) == Some(1)
  {
    ReferenceNumber(rows, opType, source, destination, year);
  }

  /**
   * Otherwise the number is one past the number that ends the reference of the
   * highest-id operation in scope, or one past that operation's id when its
   * reference does not end in an integer.
   */
  lemma NumberFollowsLatest(rows: seq<OperationRecord>, opType: string, source: Option<Location>,
                            destination: Option<Location>, year: int, h: OperationRecord)
    requires HighestIn(h, Scope(rows, opType, year, WarehouseForReference(opType, source, destination)))
    ensures
      var n := NumberOf(ReferenceFor(rows, opType, source, destination, year));
      if NumberOf(h.reference).Some? then n == Some(NumberOf(h.reference).value + 1)
      else n == Some(h.id + 1)
  {
    var wh := WarehouseForReference(opType, source, destination);
    LastNumberOfHighest(rows, opType, year, wh, h);
    ReferenceNumber(rows, opType, source, destination, year);
  }

  lemma LastNumberOfHighest(rows: seq<OperationRecord>, opType: string, year: int, wh: Option<Warehouse>,
                            h: OperationRecord)
    requires HighestIn(h, Scope(rows, opType, year, wh))
    ensures LastNumber(rows, opType, year, wh) == if NumberOf(h.reference).Some? then NumberOf(h.reference).value else h.id
  {
    var l := Latest(Scope(rows, opType, year, wh)).value;
    assert l.id <= h.id;
    assert l == h;
  }

  /** A reference generated in an empty scope ends in "0001". */
  lemma FirstReferenceEndsInOne(rows: seq<OperationRecord>, opType: string, source: Option<Location>,
                                destination: Option<Location>, year: int)
    requires Scope(rows, opType, year, WarehouseForReference(opType, source, destination)) == []
    ensures
      var wh := WarehouseForReference(opType, source, destination);
      ReferenceFor(rows, opType, source, destination, year)
        == ReferencePrefix(WarehouseCode(wh), OperationCode(opType), year) + "0001"
  {
    assert IntToString(1) == "1";
    assert Zeros(3) == "000";
  }

  /** With no resolvable warehouse the reference starts with the literal "WH/". */
  lemma UnresolvedWarehouseIsWH(rows: seq<OperationRecord>, opType: string, source: Option<Location>,
                                destination: Option<Location>, year: int)
    requires WarehouseForReference(opType, source, destination).None?
    ensures
      var ref := ReferenceFor(rows, opType, source, destination, year);
      |ref| > 3 && ref[..3] == "WH/"
  {
    var wh := WarehouseForReference(opType, source, destination);
    var n := LastNumber(rows, opType, year, wh) + 1;
    assert ReferenceFor(rows, opType, source, destination, year)
        == FormatReference("WH", OperationCode(opType), year, n);
    ReferenceStartsWithCode("WH", OperationCode(opType), year, n);
  }

  /** A freshly saved operation belongs to the scope it was numbered in. */
  lemma SavedOperationInOwnScope(r: OperationRecord)
    ensures InScope(r, r.opType, r.createdYear, WarehouseForReference(r.opType, r.source, r.destination))
  {
  }

  /**
   * Two saves in a row in the same scope (same type, same year, same resolved
   * warehouse): the second operation's number is one more than the first's,
   * provided the first received the highest id so far.
   */
  lemma {:induction false} ConsecutiveSavesAdvance(
    rows: seq<OperationRecord>, first: OperationRecord,
    source: Option<Location>, destination: Option<Location>)
    requires forall r :: r in rows ==> r.id < first.id
    requires first.reference == ReferenceFor(rows, first.opType, first.source, first.destination, first.createdYear)
    requires WarehouseForReference(first.opType, source, destination)
          == WarehouseForReference(first.opType, first.source, first.destination)
    ensures NumberOf(first.reference).Some?
    ensures NumberOf(ReferenceFor(rows + [first], first.opType, source, destination, first.createdYear))
         == Some(NumberOf(first.reference).value + 1)
  {
    var wh := WarehouseForReference(first.opType, first.source, first.destination);
    var rows' := rows + [first];
    ReferenceNumber(rows, first.opType, first.source, first.destination, first.createdYear);
    ReferenceNumber(rows', first.opType, source, destination, first.createdYear);
    SavedOperationInOwnScope(first);
    assert rows'[..|rows'| - 1] == rows;
    var scope' := Scope(rows', first.opType, first.createdYear, wh);
    assert scope' == Scope(rows, first.opType, first.createdYear, wh) + [first];
    assert Latest(scope') == Some(first) by {
      var front := Scope(rows, first.opType, first.createdYear, wh);
      assert scope'[..|scope'| - 1] == front;
      var l := Latest(front);
      assert l.Some? ==> l.value in rows;
    }
  }
}
