# replace_empty_string — a Dafny model

`replace_empty_string` is a PostgreSQL row trigger written in C. Fired BEFORE
INSERT or UPDATE for each row, it looks at every column whose base type has
the string type category and replaces an empty (zero-length, non-null) value
by NULL. When the trigger was created with the argument `on`, it raises one
WARNING per replaced column naming the column and the table.

The model has five modules:

- `Wrappers` — `Option` (SQL NULL is `None`) and `Result` (the fatal `elog(ERROR)` paths).
- `CString` — `strcmp` on the contents of two C strings, used for the `"on"` test.
- `Trigger` — the invocation: event (timing, level, operation), relation and
  column descriptors, trigger arguments, the two tuples; the invocation gate
  that selects the subject tuple; the warning switch.
- `RowRewrite` — the specification of the transform: which columns qualify,
  the ascending list of their positions (`QualifyingPositions`), the specified
  output row (`Rewrite`), the warnings (`WarningsFor`), and `ModifyByCols`, a
  model of the host's `heap_modify_tuple_by_cols` that applies a list of
  (column, value, null-flag) replacements in order.
- `EmptyStringTrigger` — the trigger function: `ScanColumns` fills three
  scratch arrays of `natts` entries through the shared counter `nresetcols`,
  exactly as the C loop does, and `ReplaceEmptyString` chains the gate, the
  argument parse, the scan and the conditional rebuild.
- `Scenarios` — worked invocations on a three-column table whose outcomes
  follow from `ReplaceEmptyString`'s contract alone.

Abstractions. The calling convention (`fcinfo`) becomes an
`Option<TriggerData>`: `None` means the function was not called by the
trigger manager. The catalog lookups on lines 87-89 (declared type, base
type, type category) are one boolean per column, `Column.isString`. A value
is `Option<string>`; `SPI_getbinval`'s null flag is `None`, and the text
length `VARSIZE_ANY_EXHDR` is the length of the string (zero bytes exactly
when zero characters). Values of non-string columns are never inspected. The
warnings that `elog(WARNING, …)` emits are returned as a sequence of
`Warning(column, relation)` in the order they are raised. The returned
`Outcome` carries `rebuilt`, which says whether a new tuple was built or the
subject tuple itself is handed back.

Where the code and its description differ: the code's final `else` on line 56
catches every operation that is neither INSERT nor UPDATE, so a row-level
BEFORE event for TRUNCATE would also be refused with the "cannot process
DELETE events" error; the model keeps that (`CannotProcessDelete` for both
`Delete` and `Truncate`). The header comment on lines 1-6 describes a
different trigger and is not modelled.

## Model

| member | source | states |
|---|---|---|
| `CString.Compare` | replace_empty_string.c:69 | the `strcmp` sign is -1, 0 or 1, and it is 0 exactly when the two strings are equal |
| `Trigger.SelectSubject` | replace_empty_string.c:42-58 | the invocation succeeds iff it comes from the trigger manager, at row level, before the operation, for INSERT or UPDATE; INSERT works on the trigger tuple, UPDATE on the new tuple; each refusal reports the first failed check in the code's order, DELETE (and TRUNCATE) last |
| `Trigger.WarningEnabled` | replace_empty_string.c:65-73 | warnings are on iff there is at least one argument and the first equals "on" exactly |
| `Trigger.TrailingArgumentsIgnored` | replace_empty_string.c:65-71 | arguments after the first never change the warning setting |
| `Trigger.WarningCaseSensitive` | replace_empty_string.c:69-70 | "ON" and "On" leave warnings off, "on" turns them on, whatever follows |
| `RowRewrite.QualifyingPositions` | replace_empty_string.c:79-102 | the reference record of the scan: ascending, duplicate-free 1-based positions within the first `n` columns, containing a position iff its column is string-like and holds a non-null empty value |
| `RowRewrite.ModifyByCols` | replace_empty_string.c:117-118 | the rebuilt tuple has the same width, keeps every column not listed, and when all null flags are set every listed column is null |
| `RowRewrite.RewriteChangesOnlyEmptyStrings` | replace_empty_string.c:87-102 | in the specified output a column differs from the input iff it qualifies, and then it is null: non-string columns, nulls and non-empty strings are never altered |
| `RowRewrite.RewriteIdempotent` | replace_empty_string.c:91-98 | running the transform on its own output changes nothing |
| `RowRewrite.RewriteUnchangedIff` | replace_empty_string.c:114-119 | the specified output equals the input iff no column qualifies |
| `RowRewrite.RebuildMatchesRewrite` | replace_empty_string.c:114-119 | rebuilding with exactly the qualifying positions, all flagged null, yields the specified output row, whatever order the positions are listed in |
| `EmptyStringTrigger.ScanColumns` | replace_empty_string.c:75-112 | every write to the three `natts`-sized buffers is in bounds; the recorded positions equal the reference list `QualifyingPositions` (so they are ascending, in `[1, natts]`, and hold a position iff that column qualifies); the three outputs have equal length at most `natts`; every recorded entry is flagged null; with warnings on there is exactly one warning per recorded column, naming it and the relation, in order, and none with warnings off |
| `EmptyStringTrigger.ReplaceEmptyString` | replace_empty_string.c:42-123 | fails exactly with the gate's error; otherwise returns the subject row with every qualifying column nulled and nothing else changed, builds a new tuple iff some column qualifies (else returns the subject itself), and raises one warning per nulled column in column order iff the first argument is "on" |
| `Scenarios.EmptyNameWarned` | replace_empty_string.c:91-107 | INSERT of (1, '', 'hello') with argument "on" gives (1, NULL, 'hello') and one warning for `name` |
| `Scenarios.EmptyNoteSilent` | replace_empty_string.c:65-73 | INSERT of (2, 'x', '') with no arguments gives (2, 'x', NULL) and no warning |
| `Scenarios.NullNameUntouched` | replace_empty_string.c:93-94 | INSERT of (3, NULL, 'y') returns the subject tuple itself, no warning |
| `Scenarios.UpdateUsesNewRow` | replace_empty_string.c:54-55 | UPDATE works on the new tuple, not the old one |
| `Scenarios.DeleteRefused` | replace_empty_string.c:56-58 | a row-level BEFORE DELETE fails with the DELETE error |

## Left out

- Extension plumbing (`PG_MODULE_MAGIC`, `PG_FUNCTION_INFO_V1`, `fcinfo`, `PointerGetDatum`): host ABI, not logic.
- Event flags are a structured value, not the host's `tg_event` bitmask: the bit layout lives in the host's trigger header, which is not part of this model.
- Catalog lookups `SPI_gettypeid`, `getBaseType`, `get_type_category_preferred` (lines 87-89): replaced by the per-column boolean `isString`; what these calls do for unusual columns (for instance a dropped column) lives in host code not part of this model.
- Datum and varlena decoding (`SPI_getbinval`, `DatumGetTextP`, `VARSIZE_ANY_EXHDR`): replaced by `Option<string>` and its length.
- Physical tuple layout and identity metadata preserved by `heap_modify_tuple_by_cols`: the rebuild is modelled only as "set these columns", and `rebuilt` stands in for "a different tuple object".
- Tuples narrower than the descriptor: `ReplaceEmptyString` requires the subject tuple to have one value per column (`SubjectFits`), as the host guarantees for the tuples it passes.
- Memory management (`palloc`, `pfree`, `SPI_getrelname`'s copy): no observable effect on the result.
- The warning message text and its emission by `elog`: warnings are returned as (column, relation) pairs; the fatal `elog(ERROR)` calls are the `TriggerError` values.
- Embedded NUL characters in trigger arguments: they cannot occur in a C string, so `CString.Compare` compares whole sequences, which coincides with `strcmp` on every possible argument.
