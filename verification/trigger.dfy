/**
 The trigger invocation as the database's trigger manager hands it over: the
 firing event, the relation with its column descriptors, the trigger's
 definition with its arguments, and the affected tuples. The module decides
 whether an invocation is acceptable, which tuple it works on, and how the
 trigger's first argument switches warnings on.
 */
module Trigger {
  import opened Wrappers
  import CString

  /** When the trigger fires relative to the row operation. */
  datatype Timing = Before | After | InsteadOf

  /** Whether the trigger fires once per row or once per statement. */
  datatype Level = ForRow | ForStatement

  /** The operation that fired the trigger. */
  datatype Operation = Insert | Update | Delete | Truncate

  datatype Event = Event(timing: Timing, level: Level, op: Operation)

  /** The fatal invocation errors, in the order the function checks them. */
  datatype TriggerError =
    | NotFiredByTriggerManager
    | NotFiredForRow
    | NotFiredBefore
    | CannotProcessDelete

  /** A column value; `None` is SQL NULL. A string-category value is its characters. */
  type Value = Option<string>

  /** A tuple: one value per column of the relation, in column order. */
  type Row = seq<Value>

  /**
   A column descriptor. `isString` is the combined answer of the catalog
   lookups: the column's declared type, resolved to its base type, has the
   string type category.
   */
  datatype Column = Column(name: string, isString: bool)

  datatype Relation = Relation(name: string, columns: seq<Column>)

  /** The trigger's definition: the arguments given when it was created. */
  datatype TriggerDef = TriggerDef(args: seq<string>)

  /**
   What the trigger manager passes: `trigTuple` is the row being inserted (or
   the old row of an update), `newTuple` the proposed new row of an update.
   */
  datatype TriggerData = TriggerData(
    event: Event,
    relation: Relation,
    trigger: TriggerDef,
    trigTuple: Row,
    newTuple: Row)

  /** The events the trigger accepts: row level, before the operation, INSERT or UPDATE. */
  predicate Accepts(e: Event)
  {
    && e.level == ForRow
    && e.timing == Before
    && (e.op == Insert || e.op == Update)
  }

  /**
   The invocation gate. `context` is `None` when the function was not called
   by the trigger manager. On success the result is the tuple the trigger
   works on; otherwise it is the first check that failed.
   */
  function SelectSubject(context: Option<TriggerData>): (r: Result<Row, TriggerError>)
    ensures r.Success? <==> context.Some? && Accepts(context.value.event)
    ensures r.Success? && context.value.event.op == Insert ==> r.value == context.value.trigTuple
    ensures r.Success? && context.value.event.op == Update ==> r.value == context.value.newTuple
    ensures context.None? ==> r == Failure(NotFiredByTriggerManager)
    ensures context.Some? ==>
      var e := context.value.event;
      && (e.level == ForStatement ==> r == Failure(NotFiredForRow))
      && (e.level == ForRow && e.timing != Before ==> r == Failure(NotFiredBefore))
      && (e.level == ForRow && e.timing == Before && (e.op == Delete || e.op == Truncate)
          ==> r == Failure(CannotProcessDelete))
  {
    match context
    case None => Failure(NotFiredByTriggerManager)
    case Some(td) =>
      if td.event.level != ForRow then Failure(NotFiredForRow)
      else if td.event.timing != Before then Failure(NotFiredBefore)
      else if td.event.op == Insert then Success(td.trigTuple)
      else if td.event.op == Update then Success(td.newTuple)
      else Failure(CannotProcessDelete)
  }

  /** Warnings are on iff there is a first argument and it is exactly "on". */
  function WarningEnabled(args: seq<string>): (w: bool)
    ensures w <==> |args| > 0 && args[0] == "on"
  {
    if |args| > 0 then CString.Compare(args[0], "on") == 0 else false
  }

  /** Only the first argument is consulted: arguments after it never change the setting. */
  lemma TrailingArgumentsIgnored(args: seq<string>, more: seq<string>)
    requires |args| > 0
    ensures WarningEnabled(args + more) == WarningEnabled(args)
  {
  }

  /** The comparison is case sensitive: "ON" and "On" leave warnings off. */
  lemma WarningCaseSensitive(rest: seq<string>)
    ensures !WarningEnabled(["ON"] + rest)
    ensures !WarningEnabled(["On"] + rest)
    ensures WarningEnabled(["on"] + rest)
  {
  }
}
