/**
 The specification of the row transform: which columns qualify for
 replacement, the ascending list of their 1-based positions, the row the
 trigger should produce, the warnings it should raise, and a model of the
 host's tuple-rebuild routine that applies a list of column replacements.
 */
module RowRewrite {
  import opened Wrappers
  import opened Trigger

  /** One warning: the column that held an empty string and the relation it belongs to. */
  datatype Warning = Warning(column: string, relation: string)

  /** A non-null value of zero length. */
  predicate IsEmptyString(v: Value)
  {
    v.Some? && |v.value| == 0
  }

  /** A column is replaced when its base type is string-like and it holds an empty string. */
  predicate Qualifies(c: Column, v: Value)
  {
    c.isString && IsEmptyString(v)
  }

  /** The column at 1-based position `p` exists and qualifies. */
  predicate QualifiesAt(columns: seq<Column>, row: Row, p: int)
  {
    1 <= p <= |columns| && p <= |row| && Qualifies(columns[p - 1], row[p - 1])
  }

  predicate StrictlyIncreasing(s: seq<int>)
  {
    forall i, j :: 0 <= i < j < |s| ==> s[i] < s[j]
  }

  /** Every entry of `ps` is a 1-based position of a row with `n` columns. */
  predicate InRange(ps: seq<int>, n: nat)
  {
    forall k :: 0 <= k < |ps| ==> 1 <= ps[k] <= n
  }

  /**
   The 1-based positions among the first `n` columns that qualify, in
   ascending order: exactly the qualifying ones, each once.
   */
  function QualifyingPositions(columns: seq<Column>, row: Row, n: nat): (ps: seq<int>)
    requires |row| == |columns| && n <= |columns|
    ensures |ps| <= n
    ensures InRange(ps, n)
    ensures StrictlyIncreasing(ps)
    ensures forall p :: p in ps <==> p <= n && QualifiesAt(columns, row, p)
    decreases n
  {
    if n == 0 then []
    else
      var prefix := QualifyingPositions(columns, row, n - 1);
      if Qualifies(columns[n - 1], row[n - 1]) then prefix + [n] else prefix
  }

  /** The row the trigger should produce: every qualifying column nulled, every other kept. */
  function Rewrite(columns: seq<Column>, row: Row): Row
    requires |row| == |columns|
  {
    seq(|row|, i requires 0 <= i < |row| => if Qualifies(columns[i], row[i]) then None else row[i])
  }

  /** The warnings for the columns at positions `ps`, in the same order. */
  function WarningsFor(columns: seq<Column>, relname: string, ps: seq<int>): seq<Warning>
    requires InRange(ps, |columns|)
  {
    seq(|ps|, k requires 0 <= k < |ps| => Warning(columns[ps[k] - 1].name, relname))
  }

  /** Recording one more position adds its warning at the end. */
  lemma WarningsForAppend(columns: seq<Column>, relname: string, ps: seq<int>, p: int)
    requires InRange(ps, |columns|) && 1 <= p <= |columns|
    ensures InRange(ps + [p], |columns|)
    ensures WarningsFor(columns, relname, ps + [p]) == WarningsFor(columns, relname, ps) + [Warning(columns[p - 1].name, relname)]
  {
  }

  /**
   The host's tuple rebuild: replacement `k` sets column `cols[k]` to null when
   `nulls[k]` holds and to `values[k]` otherwise, applied in order, so a later
   entry for the same column wins. Column numbers must be valid.
   */
  function ModifyByCols(row: Row, cols: seq<int>, values: seq<Value>, nulls: seq<bool>): (r: Row)
    requires |cols| == |values| == |nulls|
    requires InRange(cols, |row|)
    ensures |r| == |row|
    ensures forall i :: 0 <= i < |row| && i + 1 !in cols ==> r[i] == row[i]
    ensures (forall k :: 0 <= k < |nulls| ==> nulls[k]) ==>
              forall i :: 0 <= i < |row| && i + 1 in cols ==> r[i] == None
    decreases |cols|
  {
    if |cols| == 0 then row
    else
      var updated := row[cols[0] - 1 := if nulls[0] then None else values[0]];
      ModifyByCols(updated, cols[1..], values[1..], nulls[1..])
  }

  /** Only qualifying columns change, and each of them becomes null. */
  lemma RewriteChangesOnlyEmptyStrings(columns: seq<Column>, row: Row)
    requires |row| == |columns|
    ensures |Rewrite(columns, row)| == |row|
    ensures forall i :: 0 <= i < |row| ==>
      (Rewrite(columns, row)[i] != row[i] <==> Qualifies(columns[i], row[i]))
    ensures forall i :: 0 <= i < |row| && Qualifies(columns[i], row[i]) ==> Rewrite(columns, row)[i] == None
  {
  }

  /** Applying the transform to its own output changes nothing: no empty string survives it. */
  lemma RewriteIdempotent(columns: seq<Column>, row: Row)
    requires |row| == |columns|
    ensures Rewrite(columns, Rewrite(columns, row)) == Rewrite(columns, row)
  {
  }

  /** The row comes back unchanged exactly when no column qualifies. */
  lemma RewriteUnchangedIff(columns: seq<Column>, row: Row)
    requires |row| == |columns|
    ensures Rewrite(columns, row) == row <==> |QualifyingPositions(columns, row, |columns|)| == 0
  {
    var ps := QualifyingPositions(columns, row, |columns|);
    if |ps| > 0 {
      var p := ps[0];
      assert p in ps && QualifiesAt(columns, row, p);
      assert Rewrite(columns, row)[p - 1] != row[p - 1];
    } else {
      forall i | 0 <= i < |row|
        ensures Rewrite(columns, row)[i] == row[i]
      {
        assert !QualifiesAt(columns, row, i + 1);
      }
    }
  }

  /**
   Rebuilding the row by nulling exactly the qualifying positions yields the
   specified row, whatever order the positions are listed in.
   */
  lemma RebuildMatchesRewrite(columns: seq<Column>, row: Row, cols: seq<int>, values: seq<Value>, nulls: seq<bool>)
    requires |row| == |columns|
    requires |cols| == |values| == |nulls|
    requires InRange(cols, |row|)
    requires forall k :: 0 <= k < |nulls| ==> nulls[k]
    requires forall p :: p in cols <==> QualifiesAt(columns, row, p)
    ensures ModifyByCols(row, cols, values, nulls) == Rewrite(columns, row)
  {
  }
}
