/**
 The trigger function itself: check the invocation, read the warning switch,
 scan the columns of the subject tuple recording every empty string of a
 string-like column, and rebuild the tuple with those columns nulled.
 */
module EmptyStringTrigger {
  import opened Wrappers
  import opened Trigger
  import opened RowRewrite

  /**
   What the trigger hands back: the row to use, whether it is a newly built
   tuple (`false` means the subject tuple itself), and the warnings raised.
   */
  datatype Outcome = Outcome(row: Row, rebuilt: bool, warnings: seq<Warning>)

  /**
   The column scan. Three scratch buffers of `natts` entries are filled in
   step through one counter `nresetcols`; the results are their filled
   prefixes: the recorded positions, the replacement values and the null
   flags. Every index written is below `natts`.
   */
  method ScanColumns(columns: seq<Column>, row: Row, warning: bool, relname: string)
    returns (resetcols: seq<int>, values: seq<Value>, nulls: seq<bool>, warnings: seq<Warning>)
    requires |row| == |columns|
    ensures resetcols == QualifyingPositions(columns, row, |columns|)
    ensures |resetcols| == |values| == |nulls| <= |columns|
    ensures forall k :: 0 <= k < |nulls| ==> nulls[k]
    ensures warnings == if warning then WarningsFor(columns, relname, resetcols) else []
  {
    var natts := |columns|;
    var colsBuf := new int[natts];
    var valuesBuf := new Value[natts];
    var nullsBuf := new bool[natts];
    var nresetcols := 0;
    warnings := [];
    var attnum := 1;
    while attnum <= natts
      invariant 1 <= attnum <= natts + 1
      invariant 0 <= nresetcols <= attnum - 1
      invariant colsBuf[..nresetcols] == QualifyingPositions(columns, row, attnum - 1)
      invariant forall k :: 0 <= k < nresetcols ==> nullsBuf[k]
      invariant warnings ==
        if warning then WarningsFor(columns, relname, QualifyingPositions(columns, row, attnum - 1)) else []
    {
      ghost var before := QualifyingPositions(columns, row, attnum - 1);
      if columns[attnum - 1].isString {
        var value := row[attnum - 1];
        if value.Some? {
          if |value.value| == 0 {
            colsBuf[nresetcols] := attnum;
            valuesBuf[nresetcols] := None;
            nullsBuf[nresetcols] := true;
            nresetcols := nresetcols + 1;
            assert colsBuf[..nresetcols] == before + [attnum];
            if warning {
              WarningsForAppend(columns, relname, before, attnum);
              warnings := warnings + [Warning(columns[attnum - 1].name, relname)];
            }
          }
        }
      }
      attnum := attnum + 1;
    }
    resetcols := colsBuf[..nresetcols];
    values := valuesBuf[..nresetcols];
    nulls := nullsBuf[..nresetcols];
  }

  /** The subject tuple, when the gate selects one, has one value per column. */
  predicate SubjectFits(context: Option<TriggerData>)
  {
    SelectSubject(context).Success? ==>
      |SelectSubject(context).value| == |context.value.relation.columns|
  }

  /**
   The trigger function. It fails exactly when the gate rejects the
   invocation; otherwise the row is the subject with every empty string of a
   string-like column nulled, a new tuple is built only when some column
   qualifies, and one warning per nulled column is raised, in column order,
   when the first trigger argument is "on".
   */
  method ReplaceEmptyString(context: Option<TriggerData>) returns (r: Result<Outcome, TriggerError>)
    requires SubjectFits(context)
    ensures SelectSubject(context).Failure? ==> r == Failure(SelectSubject(context).error)
    ensures SelectSubject(context).Success? ==> (r.Success? &&
      var td := context.value;
      var subject := SelectSubject(context).value;
      var columns := td.relation.columns;
      && r.value.row == Rewrite(columns, subject)
      && (r.value.rebuilt <==> exists i :: 0 <= i < |subject| && Qualifies(columns[i], subject[i]))
      && (!r.value.rebuilt ==> r.value.row == subject)
      && r.value.warnings ==
           if WarningEnabled(td.trigger.args)
           then WarningsFor(columns, td.relation.name, QualifyingPositions(columns, subject, |columns|))
           else [])
  {
    var selected := SelectSubject(context);
    if selected.Failure? {
      return Failure(selected.error);
    }
    var td := context.value;
    var subject := selected.value;
    var columns := td.relation.columns;
    var relname := td.relation.name;
    var warning := WarningEnabled(td.trigger.args);

    var resetcols, values, nulls, warnings := ScanColumns(columns, subject, warning, relname);

    if |resetcols| > 0 {
      RebuildMatchesRewrite(columns, subject, resetcols, values, nulls);
      var p := resetcols[0];
      assert p in resetcols && QualifiesAt(columns, subject, p);
      assert Qualifies(columns[p - 1], subject[p - 1]);
      r := Success(Outcome(ModifyByCols(subject, resetcols, values, nulls), true, warnings));
    } else {
      RewriteUnchangedIff(columns, subject);
      forall i | 0 <= i < |subject|
        ensures !Qualifies(columns[i], subject[i])
      {
        assert !QualifiesAt(columns, subject, i + 1);
      }
      r := Success(Outcome(subject, false, warnings));
    }
  }
}
