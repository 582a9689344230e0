/**
 * Reference numbering as written can hand out a reference that is already
 * stored, and a numbering that cannot.
 *
 * The scope of a warehouse takes in every operation whose source OR
 * destination lies in it, but such an operation may have been numbered under
 * another warehouse's code. When it is the highest-id operation in scope, the
 * next number follows its (foreign, smaller) number and repeats one already
 * issued under this warehouse's code.
 */
module Findings {
  import opened Wrappers
  import opened Text
  import opened Records
  import opened Reference

  const Main := Warehouse(1, "Main", "W", "")
  const Annex := Warehouse(2, "Annex", "X", "")
  const ShelfMain := Location(1, Main, "A")
  const ShelfAnnex := Location(2, Annex, "B")

  const MainFirst := "W/MOVE/2025/0001"
  const MainSecond := "W/MOVE/2025/0002"
  const AnnexFirst := "X/MOVE/2025/0001"

  /** The example references are those the format yields for numbers 1 and 2. */
  lemma ExampleSpelling()
    ensures MainFirst == FormatReference("W", "MOVE", 2025, 1)
    ensures MainSecond == FormatReference("W", "MOVE", 2025, 2)
    ensures AnnexFirst == FormatReference("X", "MOVE", 2025, 1)
    ensures NumberOf(MainFirst) == Some(1) && NumberOf(AnnexFirst) == Some(1)
  {
    YearSpelling();
    PaddedSpelling();
    assert ReferencePrefix("W", "MOVE", 2025) == "W/MOVE/2025/";
    assert ReferencePrefix("X", "MOVE", 2025) == "X/MOVE/2025/";
    assert MainFirst == "W/MOVE/2025/" + "0001";
    assert MainSecond == "W/MOVE/2025/" + "0002";
    assert AnnexFirst == "X/MOVE/2025/" + "0001";
    FormatReferenceRoundTrip("W", "MOVE", 2025, 1);
    FormatReferenceRoundTrip("X", "MOVE", 2025, 1);
  }

  lemma YearSpelling()
    ensures IntToString(2025) == "2025"
  {
    assert NatToString(2) == "2";
    assert NatToString(20) == "20";
    assert NatToString(202) == "202";
  }

  lemma PaddedSpelling()
    ensures Padded(1) == "0001" && Padded(2) == "0002"
  {
    assert Zeros(3) == "000";
  }

  /**
   * Three internal transfers saved in 2025, in this order: two out of Main,
   * then one from Annex into Main.
   */
  function ExampleRows(): seq<OperationRecord> {
    [ OperationRecord(1, Internal, "DRAFT", Some(ShelfMain), None, 2025, MainFirst),
      OperationRecord(2, Internal, "DRAFT", Some(ShelfMain), None, 2025, MainSecond),
      OperationRecord(3, Internal, "DRAFT", Some(ShelfAnnex), Some(ShelfMain), 2025, AnnexFirst) ]
  }

  lemma FirstExampleSave()
    ensures var r := ExampleRows()[0];
      r.reference == ReferenceFor([], r.opType, r.source, r.destination, r.createdYear)
  {
    assert LastNumber([], Internal, 2025, Some(Main)) == 0 by {
      assert Scope([], Internal, 2025, Some(Main)) == [];
    }
    assert WarehouseForReference(Internal, Some(ShelfMain), None) == Some(Main);
    assert ReferenceFor([], Internal, Some(ShelfMain), None, 2025) == FormatReference("W", "MOVE", 2025, 1);
    ExampleSpelling();
  }

  lemma SecondExampleSave()
    ensures var r := ExampleRows()[1];
      r.reference == ReferenceFor(ExampleRows()[..1], r.opType, r.source, r.destination, r.createdYear)
  {
    var rows := ExampleRows();
    assert LastNumber(rows[..1], Internal, 2025, Some(Main)) == 1 by {
      assert rows[..1][..0] == [];
      assert Scope(rows[..1], Internal, 2025, Some(Main)) == [rows[0]];
      assert Latest([rows[0]]) == Some(rows[0]);
      ExampleSpelling();
    }
    assert WarehouseForReference(Internal, Some(ShelfMain), None) == Some(Main);
    assert ReferenceFor(rows[..1], Internal, Some(ShelfMain), None, 2025)
        == FormatReference("W", "MOVE", 2025, 2);
    ExampleSpelling();
  }

  lemma ThirdExampleSave()
    ensures var r := ExampleRows()[2];
      r.reference == ReferenceFor(ExampleRows()[..2], r.opType, r.source, r.destination, r.createdYear)
  {
    var rows := ExampleRows();
    assert LastNumber(rows[..2], Internal, 2025, Some(Annex)) == 0 by {
      assert rows[..2][..1] == rows[..1];
      assert rows[..1][..0] == [];
      assert Scope(rows[..1], Internal, 2025, Some(Annex)) == [];
      assert Scope(rows[..2], Internal, 2025, Some(Annex)) == [];
    }
    assert WarehouseForReference(Internal, Some(ShelfAnnex), Some(ShelfMain)) == Some(Annex);
    assert ReferenceFor(rows[..2], Internal, Some(ShelfAnnex), Some(ShelfMain), 2025)
        == FormatReference("X", "MOVE", 2025, 1);
    ExampleSpelling();
  }

  lemma MainScopeOfFirstRow()
    ensures Scope(ExampleRows()[..1], Internal, 2025, Some(Main)) == [ExampleRows()[0]]
  {
    assert ExampleRows()[..1][..0] == [];
  }

  lemma MainScopeOfFirstTwoRows()
    ensures Scope(ExampleRows()[..2], Internal, 2025, Some(Main)) == ExampleRows()[..2]
  {
    var rows := ExampleRows();
    MainScopeOfFirstRow();
    assert rows[..2][..1] == rows[..1];
    assert rows[..2] == [rows[0], rows[1]];
  }

  /** All three example rows are in Main's scope: the Annex row through its destination. */
  lemma MainScopeIsEveryRow()
    ensures Scope(ExampleRows(), Internal, 2025, Some(Main)) == ExampleRows()
  {
    var rows := ExampleRows();
    MainScopeOfFirstTwoRows();
    assert rows[..|rows| - 1] == rows[..2];
    assert rows == rows[..2] + [rows[2]];
  }

  lemma LatestExampleRowIsAnnex()
    ensures Latest(ExampleRows()) == Some(ExampleRows()[2])
  {
    var rows := ExampleRows();
    assert rows[..2][..1] == rows[..1];
    assert rows[..1][..0] == [];
    assert rows[..|rows| - 1] == rows[..2];
  }

  /** The Annex row has the highest id in Main's scope, so its number 1 is followed. */
  lemma FourthExampleSave()
    ensures ReferenceFor(ExampleRows(), Internal, Some(ShelfMain), None, 2025) == ExampleRows()[1].reference
  {
    var rows := ExampleRows();
    MainScopeIsEveryRow();
    LatestExampleRowIsAnnex();
    assert LastNumber(rows, Internal, 2025, Some(Main)) == 1 by {
      ExampleSpelling();
    }
    assert WarehouseForReference(Internal, Some(ShelfMain), None) == Some(Main);
    assert ReferenceFor(rows, Internal, Some(ShelfMain), None, 2025)
        == FormatReference("W", "MOVE", 2025, 2);
    ExampleSpelling();
  }

  /**
   * Each example row carries the reference a save gives it on top of the rows
   * before it; a fourth internal transfer out of Main then gets the reference
   * of the second row, W/MOVE/2025/0002, a second time.
   */
  lemma DuplicateReferenceExample()
    ensures forall k :: 0 <= k < |ExampleRows()| ==>
      var r := ExampleRows()[k];
      r.reference == ReferenceFor(ExampleRows()[..k], r.opType, r.source, r.destination, r.createdYear)
    ensures ReferenceFor(ExampleRows(), Internal, Some(ShelfMain), None, 2025) == ExampleRows()[1].reference
  {
    FirstExampleSave();
    SecondExampleSave();
    ThirdExampleSave();
    FourthExampleSave();
    assert ExampleRows()[..0] == [];
  }

  /**
   * The highest number already issued after `prefix` in a stored reference,
   * or 0 when there is none.
   */
  function HighestIssued(rows: seq<OperationRecord>, prefix: string): (m: nat)
    ensures forall r :: r in rows && prefix <= r.reference && ParseInt(r.reference[|prefix|..]).Some? ==>
              ParseInt(r.reference[|prefix|..]).value <= m
    ensures m > 0 ==> exists r :: r in rows && prefix <= r.reference && ParseInt(r.reference[|prefix|..]) == Some(m)
  {
    if rows == [] then 0
    else
      var front := HighestIssued(rows[..|rows| - 1], prefix);
      var last := rows[|rows| - 1];
      assert rows == rows[..|rows| - 1] + [last];
      if prefix <= last.reference && ParseInt(last.reference[|prefix|..]).Some?
         && ParseInt(last.reference[|prefix|..]).value > front
      then ParseInt(last.reference[|prefix|..]).value
      else front
  }

  /**
   * Corrected numbering: one past the highest number already issued under
   * the same warehouse code, operation code and year. The reference it
   * yields is not stored yet.
   */
  function CorrectedReferenceFor(rows: seq<OperationRecord>, opType: string, source: Option<Location>,
                                 destination: Option<Location>, year: int): (ref: string)
    ensures NumberOf(ref).Some? && NumberOf(ref).value >= 1
    ensures var p := ReferencePrefix(WarehouseCode(WarehouseForReference(opType, source, destination)),
                                     OperationCode(opType), year);
      p <= ref &&
      forall r :: r in rows && p <= r.reference && ParseInt(r.reference[|p|..]).Some? ==>
        ParseInt(r.reference[|p|..]).value < NumberOf(ref).value
    ensures forall r :: r in rows ==> r.reference != ref
  {
    var wh := WarehouseForReference(opType, source, destination);
    var prefix := ReferencePrefix(WarehouseCode(wh), OperationCode(opType), year);
    var n := HighestIssued(rows, prefix) + 1;
    var ref := FormatReference(WarehouseCode(wh), OperationCode(opType), year, n);
    assert ref == prefix + Padded(n);
    assert ref[|prefix|..] == Padded(n);
    PaddedNumberRoundTrip(n);
    FormatReferenceRoundTrip(WarehouseCode(wh), OperationCode(opType), year, n);
    ref
  }
}
