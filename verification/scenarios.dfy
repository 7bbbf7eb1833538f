/**
 Worked invocations on a table `t(id integer, name text, note text)`: the
 trigger's contract alone determines each outcome.
 */
module Scenarios {
  import opened Wrappers
  import opened Trigger
  import opened RowRewrite
  import opened EmptyStringTrigger

  const columns: seq<Column> := [Column("id", false), Column("name", true), Column("note", true)]
  const table := Relation("t", columns)

  function InsertOf(row: Row, args: seq<string>): Option<TriggerData>
  {
    Some(TriggerData(Event(Before, ForRow, Insert), table, TriggerDef(args), row, []))
  }

  /** The reference positions of a three-column row, unfolded one column at a time. */
  lemma PositionsOfThree(row: Row)
    requires |row| == 3
    ensures QualifyingPositions(columns, row, 3) ==
      (if Qualifies(columns[0], row[0]) then [1] else [])
      + (if Qualifies(columns[1], row[1]) then [2] else [])
      + (if Qualifies(columns[2], row[2]) then [3] else [])
  {
  }

  /** An empty `name` with warnings on: it is nulled and one warning names it. */
  method EmptyNameWarned() returns (r: Result<Outcome, TriggerError>)
    ensures r == Success(Outcome([Some("1"), None, Some("hello")], true, [Warning("name", "t")]))
  {
    var row: Row := [Some("1"), Some(""), Some("hello")];
    PositionsOfThree(row);
    assert Qualifies(columns[1], row[1]);
    assert !Qualifies(columns[0], row[0]) && !Qualifies(columns[2], row[2]);
    assert QualifyingPositions(columns, row, 3) == [2];
    assert WarningsFor(columns, "t", [2]) == [Warning("name", "t")];
    assert WarningEnabled(["on"]);
    assert Rewrite(columns, row) == [Some("1"), None, Some("hello")];
    r := ReplaceEmptyString(InsertOf(row, ["on"]));
  }

  /** An empty `note` with no trigger arguments: it is nulled silently. */
  method EmptyNoteSilent() returns (r: Result<Outcome, TriggerError>)
    ensures r == Success(Outcome([Some("2"), Some("x"), None], true, []))
  {
    var row: Row := [Some("2"), Some("x"), Some("")];
    assert Qualifies(columns[2], row[2]);
    assert Rewrite(columns, row) == [Some("2"), Some("x"), None];
    r := ReplaceEmptyString(InsertOf(row, []));
  }

  /** A null `name` is left alone: the subject tuple comes back as it was, with no warning. */
  method NullNameUntouched() returns (r: Result<Outcome, TriggerError>)
    ensures r == Success(Outcome([Some("3"), None, Some("y")], false, []))
  {
    var row: Row := [Some("3"), None, Some("y")];
    PositionsOfThree(row);
    assert Rewrite(columns, row) == row;
    r := ReplaceEmptyString(InsertOf(row, ["on"]));
  }

  /** An update works on the proposed new row, not the old one. */
  method UpdateUsesNewRow() returns (r: Result<Outcome, TriggerError>)
    ensures r == Success(Outcome([Some("4"), None, Some("z")], true, [Warning("name", "t")]))
  {
    var oldRow: Row := [Some("4"), Some("a"), Some("z")];
    var newRow: Row := [Some("4"), Some(""), Some("z")];
    PositionsOfThree(newRow);
    assert Qualifies(columns[1], newRow[1]);
    assert !Qualifies(columns[0], newRow[0]) && !Qualifies(columns[2], newRow[2]);
    assert QualifyingPositions(columns, newRow, 3) == [2];
    assert WarningsFor(columns, "t", [2]) == [Warning("name", "t")];
    assert WarningEnabled(["on", "x"]);
    assert Rewrite(columns, newRow) == [Some("4"), None, Some("z")];
    r := ReplaceEmptyString(Some(TriggerData(Event(Before, ForRow, Update), table, TriggerDef(["on", "x"]), oldRow, newRow)));
  }

  /** A DELETE is refused before any row is looked at. */
  method DeleteRefused() returns (r: Result<Outcome, TriggerError>)
    ensures r == Failure(CannotProcessDelete)
  {
    r := ReplaceEmptyString(Some(TriggerData(Event(Before, ForRow, Delete), table, TriggerDef([]), [Some("")], [])));
  }
}
