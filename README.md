# KoboToolbox → PostgreSQL ETL, modelled in Dafny

The system loads KoboToolbox survey submissions into a raw PostgreSQL staging
schema (`dsa`). It then cleans the staging table, builds a day-level calendar
dimension, and normalises the staging table into star-schema dimensions in the
`edw` schema, driven by an operator at a terminal.

This project models the sequential logic under the database calls and the
prompts. It proves properties of that logic.

- **The database** is replaced by data:
  - the `information_schema` catalog is a sequence of `(name, type)` pairs;
  - a table is a sequence of rows, each row a map from column name to value;
  - the statements the code would execute are a log of abstract statements.
- **The operator** is replaced by a scripted sequence of answers. An answer is
  one of: accept the default, yes, no, typed text, a picked choice, ticked
  values, or a cancelled prompt.

The modules:

| module | models |
|---|---|
| `Ascii`, `PyDict`, `JsonValue`, `Wrappers` | ASCII character classes and `str.lower`; Python's insertion-ordered `dict`; the decoded JSON of a submission; `Option` |
| `SurveyUtils` | `utils.py`: `clean_survey_name` and the ordered rule chain of `inferir_tipo_pg` |
| `Statements`, `Staging` | `dsa_etl.py`: the staging schema built from the first submission, the drop-and-create of the staging table, the per-submission value rows with JSONB wrapping, and the per-row INSERT/commit sequence |
| `Cleanup` | `limpieza.py`: the redundant-column set, the emptiness predicate of the count queries, the drop set and the DROP COLUMN statements |
| `Calendar` | `d_tiempo_etl.py`: Gregorian dates, month and semester labels, and the day-by-day loop of `generar_calendario` |
| `Diagnostics` | `diagnostico.py`: the field table of the first submission, the four problem buckets, and the always-None intersection |
| `SnakeCase`, `Structure` | `normalizacion.py`: `to_snake_case`, `detectar_estructura` and `tiene_columnas_timestamp` |
| `Dimension`, `Relational` | `normalizacion.py`, `crear_dimension_edw`: its column list, constraints and insert mode as a plan, and a row semantics for plain copy, DISTINCT ON and LEFT JOIN |
| `Prompts`, `Selection`, `Planner` | `normalizacion.py`, `normalizar_interactivo`: the prompts, the index-list selection, the partition loop over the main columns with its pool and counter, and the group pass with the `tablas_creadas` registry |

Where a loop in the source updates variables step by step, the model uses a
`method` with a loop. Each such method is proved equal to a reference
function, or given completely by its ensures, and the properties are proved
about that function.

Two facts of the code that the model follows:

- An index list that does not parse selects only the first column
  (`normalizacion.py:464-469`), not all of them; see
  `Selection.SelectByIndices` and `Selection.EmptyTextPicksFirst`.
- A dimension build drops and re-creates `edw.<table>` before it inserts
  (`normalizacion.py:221-223`). Re-running a build therefore never
  duplicates rows: the table's content after a build does not depend on
  what it held before; see `Relational.Execute`.

## Model

| member | source | states |
|---|---|---|
| `SurveyUtils.CleanSurveyName` | utils.py:10-15 | the cleaned name has only lower-case word characters: no upper case, no whitespace, no hyphen |
| `SurveyUtils.CollapseSeps` | utils.py:14 | no separator (blank or hyphen) is left after the substitution |
| `SurveyUtils.CollapseWithoutSeps` | utils.py:14 | text without blanks or hyphens is unchanged; in particular existing underscores are not collapsed |
| `SurveyUtils.RunBecomesOneUnderscore` | utils.py:14 | a maximal run of blanks and hyphens becomes exactly one `_`, including a leading or trailing run (nothing is trimmed) |
| `SurveyUtils.CleanSurveyNameIdempotent` | utils.py:10-15 | cleaning a cleaned name changes nothing |
| `SurveyUtils.InferPgType` | utils.py:18-41 | one condition per type, exactly: BOOLEAN iff bool (never INTEGER), INTEGER iff int, NUMERIC iff float, JSONB iff dict or list, TIMESTAMP iff a string with the date-time prefix, POINT iff a non-timestamp string of point shape, TEXT for None and every other string |
| `SurveyUtils.TimestampIgnoresSuffix` | utils.py:31-32 | only a prefix must match: any text after the date-time prefix keeps the type TIMESTAMP |
| `SurveyUtils.PointShapeIsNotTimestamp` | utils.py:31-35 | no point-shaped string has the date-time prefix, so the order of the two tests never matters for points |
| `SurveyUtils.PointShape` | utils.py:34-35 | a string is POINT iff it is two optionally signed decimals (digits, optional `.digits`) joined by a comma, optionally followed by one newline |
| `JsonValue.Lookup` | dsa_etl.py:82 | `submission.get(col)`: a non-None result is a binding of the key; a key that is absent gives None |
| `Staging.InferSchema` | dsa_etl.py:136-141 | the schema loop computes the fold of `schema[key] = inferir_tipo_pg(value)` over the first submission |
| `Staging.SchemaKeys` | dsa_etl.py:136-141 | the schema's keys are distinct and are exactly the submission's keys |
| `Staging.SchemaFollowsSubmission` | dsa_etl.py:133-141 | for a submission with distinct keys, entry i of the schema is key i of the submission with its inferred type, in order |
| `Staging.SchemaFor` | dsa_etl.py:125-141 | there is a schema iff there is a submission |
| `Staging.LaterSubmissionsIgnored` | dsa_etl.py:133 | appending further submissions never changes the schema |
| `Staging.ColumnDefinitions` | dsa_etl.py:53-59 | one definition per schema entry, in schema order, with the entry's type name |
| `Staging.BuildTable` | dsa_etl.py:26-69 | `create_table` issues exactly the creation log: create schema, commit, drop, create, commit |
| `Staging.CreateLogShape` | dsa_etl.py:40-68 | the table is dropped before it is created, the create carries the column definitions in schema order, and both steps are committed |
| `Staging.Adapt` | dsa_etl.py:84-85 | the value is passed on unchanged, wrapped in `Json` iff the column type is JSONB and the value is a dict or list |
| `Staging.ValueRow` | dsa_etl.py:76-86 | one value per schema column, in schema order: the adapted `submission.get(col)` |
| `Staging.MissingKeyIsNull` | dsa_etl.py:82 | a schema column missing from the submission gets an unwrapped None |
| `Staging.ExtraKeyIgnored` | dsa_etl.py:76-86 | a key that is not a schema column does not change the value row |
| `Staging.InsertLogShape` | dsa_etl.py:78-101 | without failures, one INSERT per submission in submission order, each followed by its own commit |
| `Staging.FirstRejected` | dsa_etl.py:98-105 | the position of the first failing submission, or the count when none fails |
| `Staging.InsertData` | dsa_etl.py:72-105 | the load succeeds iff no submission fails; the statements are the committed inserts before the first failure and then the uncommitted failing one |
| `Staging.LoadLogShape` | dsa_etl.py:78-105 | exactly the submissions before the first failure are committed, in order; nothing after the failure is attempted |
| `Staging.MigrateRaw` | dsa_etl.py:110-167 | the table is the cleaned survey name; without submissions nothing is issued; otherwise the creation log for the first submission's schema followed by the load |
| `Cleanup.AsWrittenLacksXformIdString` | limpieza.py:29-40 | the literal as written holds 9 names, among them `_xform_id_string_uuid` and `_uuid`, and not `_xform_id_string` |
| `Cleanup.RedundantColumnsCardinality` | limpieza.py:29-40 | the corrected set also holds 9 names (since `_uuid` is listed twice) and differs from the literal only in `_xform_id_string` |
| `Cleanup.XformIdStringKept` | limpieza.py:33 | a non-empty `_xform_id_string` column survives the drop-set formula of line 168 under the literal as written and is dropped under the corrected set |
| `Cleanup.BlankIsNotEmpty` | limpieza.py:90-94 | in a non-JSONB column the empty text is empty but a blank is not: there is no trimming |
| `Cleanup.NonEmptyCount` | limpieza.py:65-99 | the count query never exceeds the number of rows |
| `Cleanup.NonEmptyCountZero` | limpieza.py:61-105 | the non-empty count is zero iff every row's value is empty in that column (NULL, `{}`, `[]` or an all-null array for JSONB; NULL or `''` otherwise) |
| `Cleanup.GetEmptyColumns` | limpieza.py:43-108 | a column is reported iff it is in the catalog and every row is empty in it |
| `Cleanup.NoRowsAllEmpty` | limpieza.py:101-105 | over a table without rows every column is reported empty |
| `Cleanup.DropColumns` | limpieza.py:111-126 | nothing for an empty set; otherwise one distinct DROP COLUMN per column, covering every column, then one commit |
| `Cleanup.ColumnsToDrop` | limpieza.py:168-182 | a column is dropped iff it is redundant and exists, or is empty |
| `Cleanup.CleanTable` | limpieza.py:157-189 | with the corrected redundant set (see Findings), a column is dropped iff it exists and is redundant or empty; no statement at all when nothing is dropped; otherwise one DROP per dropped column and a final commit. On a table with a non-empty `_xform_id_string` column this differs from the cited code, which keeps that column |
| `Calendar.DaysInMonth` | d_tiempo_etl.py:63 | 28 to 31 days, 29 exactly for February of a Gregorian leap year |
| `Calendar.NextDay` | d_tiempo_etl.py:63 | the next day is a valid date, in the same year except after December 31 |
| `Calendar.DecemberThirtyFirst` | d_tiempo_etl.py:42 | December 31 is day 365 of a common year and day 366 of a leap year |
| `Calendar.NextDayOrdinal` | d_tiempo_etl.py:47-63 | within a year, the next day is one day further into the year |
| `Calendar.NextDayKeyGrows` | d_tiempo_etl.py:48-63 | the YYYYMMDD key of the next day is larger |
| `Calendar.MonthName` | d_tiempo_etl.py:21-28 | a name exists iff the month is 1..12, and every name fits VARCHAR(10) (d_tiempo_etl.py:111) |
| `Calendar.Semester` | d_tiempo_etl.py:31-36 | `(1, 'PRIMER SEM')` iff the month is at most 6, else `(2, 'SEGUNDO SEM')`; the name fits VARCHAR(12) (d_tiempo_etl.py:113) |
| `Calendar.SemesterIsHalf` | d_tiempo_etl.py:31-36 | for months 1..12 the semester number is the half of the year the month falls in |
| `Calendar.StrftimeParses` | d_tiempo_etl.py:48 | `int(strftime('%Y%m%d'))` is `year*10000 + month*100 + day` |
| `Calendar.MakeRecord` | d_tiempo_etl.py:48-60 | the record of a day carries the day, its year, month, month name and semester, and `id_tiempo = anio*10000 + mes_num*100 + day` |
| `Calendar.KeysIncrease` | d_tiempo_etl.py:47-63 | records of consecutive days have strictly increasing `id_tiempo`, so the primary key of line 108 is unique |
| `Calendar.GenerateCalendar` | d_tiempo_etl.py:39-65 | a calendar exists iff `date(y,1,1)` and the step past December 31 are in range; it then has 366 records iff y is a leap year (365 otherwise), runs over consecutive days from January 1 to December 31 with `anio = y`, and has strictly increasing ids |
| `Diagnostics.ShownString` | diagnostico.py:72-76 | a string of at most 50 characters is shown quoted; a longer one shows its first 50 characters, then `...`, all quoted |
| `Diagnostics.FirstKeys` | diagnostico.py:61 | at most the first 3 keys, in order |
| `Diagnostics.DetailOf` | diagnostico.py:54-78 | a dict detail is for a non-empty dict and lists at most 3 keys; a string detail has at most 55 characters; bool, int and float values are shown as themselves |
| `Diagnostics.FieldTable` | diagnostico.py:51-80 | one line per field of the first submission, in order: key, type name, detail |
| `Diagnostics.Classify` | diagnostico.py:96-105 | None goes to the null bucket, `{}` to empty objects, `[]` to empty arrays, a non-empty all-None list to null arrays, each iff |
| `Diagnostics.OtherValuesUnclassified` | diagnostico.py:96-105 | an empty string, a non-empty dict and a scalar land in no bucket |
| `Diagnostics.ClassifyFields` | diagnostico.py:91-105 | each of the four bucket lists is exactly the keys of that kind, in field order |
| `Diagnostics.KeysInMembers` | diagnostico.py:96-105 | a key is in a bucket iff one of the submission's fields with that key has a value of that kind |
| `Diagnostics.BucketsDisjoint` | diagnostico.py:96-105 | with distinct keys, no key lands in two buckets |
| `Diagnostics.NullKeys` | diagnostico.py:133 | the keys that are None in a submission |
| `Diagnostics.AlwaysNull` | diagnostico.py:124-134 | the check runs iff there is more than one submission; a key is kept iff it is None in the first submission and present with None in every later one |
| `Diagnostics.MissingKeyNotAlwaysNull` | diagnostico.py:132-134 | a key missing from a later submission is not reported as always None |
| `Diagnostics.Diagnose` | diagnostico.py:40-134 | no report without submissions; otherwise one field line per key of the first submission, in order, each holding the key, its type name and its detail, then the four buckets and the always-None set, as above |
| `Diagnostics.BucketsMatchCleanup` | diagnostico.py:96-105 | a None, dict or list value lands in a bucket iff the cleanup's JSONB query (limpieza.py, lines 63-87) counts its stored form as empty |
| `SnakeCase.StripNonSnake` | normalizacion.py:50 | only characters of `[A-Za-z0-9_/]` remain |
| `SnakeCase.SplitCamel` | normalizacion.py:51 | inserting underscores keeps the text within `[A-Za-z0-9_/]` |
| `SnakeCase.ToSnakeCase` | normalizacion.py:48-52 | the canonical name has only lower-case letters, digits, `_` and `/` |
| `SnakeCase.SplitCamelInsertsAtBoundaries` | normalizacion.py:51 | the substitution inserts `_` exactly at each `[a-z0-9][A-Z]` pair of its input |
| `SnakeCase.ToSnakeCaseIdempotent` | normalizacion.py:48-52 | canonicalising a canonical name changes nothing |
| `SnakeCase.CaseVariantsAgree` | normalizacion.py:48-52 | names equal up to letter case, without camel-case boundaries, get the same canonical name |
| `Structure.DetectStructure` | normalizacion.py:88-111 | the main list is the columns without `/`, snake-cased, in catalog order; the groups hold exactly the group keys in order of first appearance, each with its columns in catalog order |
| `PyDict.Append` | normalizacion.py:107 | `d[k].append(x)` on a `defaultdict(list)`: keys stay distinct, a new key is added at the end, and only the list of `k` grows, by `x` at its end |
| `Structure.EntryPlaced` | normalizacion.py:102-111 | every catalog entry is placed: in the main list when its name has no `/`, otherwise in the group of its prefix |
| `Structure.MainProvenance` | normalizacion.py:108-109 | every main column comes from a catalog name without `/`, keeps that name as its third component, and is named by its snake-cased form |
| `Structure.GroupProvenance` | normalizacion.py:102-107 | every group column comes from a name with `/` whose snake-cased prefix (before the first `/`) is the group key; the field is the snake-cased rest, which may still contain `/` |
| `Structure.GroupKeysProvenance` | normalizacion.py:105-107 | the group keys are distinct, and each is the snake-cased prefix of some nested column |
| `Structure.CaseVariantsShareGroup` | normalizacion.py:102-107 | prefixes that differ only in letter case and have no camel-case boundary land in the same group |
| `Structure.HasTimestampColumns` | normalizacion.py:114-117 | true iff some column type starts with `timestamp` (the first disjunct adds nothing) |
| `Dimension.BuildColumnDefs` | normalizacion.py:225-244 | the loop's list is the reference column list: `id`, the optional FK column, the kept columns, the optional `fecha_carga_etl` |
| `Dimension.KeptMembers` | normalizacion.py:232-235 | a column is kept iff it is in the list and its staging name, lower-cased, is not `id` |
| `Dimension.KeptAll` | normalizacion.py:232-235 | a list without staging `id` columns is kept whole |
| `Dimension.ColumnDefsShape` | normalizacion.py:225-244 | the SERIAL `id` first; the FK column second iff both FK table and FK column are given; then the kept columns in order; `fecha_carga_etl` last iff some unfiltered column type starts with `timestamp`; no other entry is the SERIAL id (a column renamed to `id` stays a data column, so the name can occur twice) |
| `Dimension.PlanDimension` | normalizacion.py:199-382 | the plan has the column list above, a UNIQUE constraint iff the unique list is non-empty, an FK constraint iff FK table and FK column are given, and the insert mode of the migration branch |
| `Dimension.MigrationAligned` | normalizacion.py:285-372 | the source and target lists come from the same kept columns, index-aligned from staging name to destination name; with an FK the target list starts with the FK column |
| `Dimension.MigrationChoice` | normalizacion.py:289-372 | no FK table: a plain or DISTINCT ON copy; FK table without both match columns: no insert; both match columns: a LEFT JOIN, which raises only without an FK column name |
| `Dimension.UniqueListReused` | normalizacion.py:254-307 | an empty checkbox answer (lines 501-502) plans exactly as no answer; a set key is the same list for the UNIQUE constraint and for DISTINCT ON |
| `Relational.Project` | normalizacion.py:285-318 | the projected row has exactly the destination columns |
| `Relational.ProjectAt` | normalizacion.py:285-318 | with distinct destination names, each destination column holds its source column's value |
| `Relational.ProjectAll` | normalizacion.py:309-318 | one projected row per staging row, in order |
| `Relational.DistinctOnFrom` | normalizacion.py:293-307 | DISTINCT ON keeps a subset of the rows, no more than there were |
| `Relational.DistinctOnFromKeys` | normalizacion.py:293-307 | the rows kept have pairwise different keys, and every key combination of the input is kept |
| `Relational.DistinctOnCount` | normalizacion.py:293-307 | DISTINCT ON leaves exactly one row per distinct key combination |
| `Relational.Matches` | normalizacion.py:339-361 | the parent rows whose match column equals the staging row's, where NULL matches nothing |
| `Relational.JoinOne` | normalizacion.py:339-361 | one joined row per match, or one row when nothing matches |
| `Relational.LeftJoinCount` | normalizacion.py:326-372 | the LEFT JOIN loses no staging row; with at most one match per row the count is unchanged |
| `Relational.UniqueParentMatch` | normalizacion.py:339-361 | distinct non-NULL match values in the parent give each staging row at most one match |
| `Relational.NoMatches` | normalizacion.py:339-361 | a staging row whose value no parent has matches nothing |
| `Relational.JoinOneFk` | normalizacion.py:326-372 | the FK column is NULL iff no parent row matched; otherwise it is the id of a matching parent row; the other columns are the projected staging row |
| `Relational.Number` | normalizacion.py:226 | SERIAL ids: the i-th inserted row gets id i + 1 |
| `Relational.NumberedIdsDistinct` | normalizacion.py:226 | the ids of a loaded table are distinct |
| `Relational.PlanRowCount` | normalizacion.py:285-372 | one row per staging row without FK or unique columns; one per distinct key combination with unique columns and no FK; none when a match column is missing; at least one per staging row with an FK and no key |
| `Prompts.Confirm` | normalizacion.py:450-454 | an answer exists iff the operator answers; Enter gives the default |
| `Prompts.Text` | normalizacion.py:120-126 | an answer exists iff the operator answers; Enter gives the default text |
| `Prompts.Select` | normalizacion.py:596-600 | the answer is one of the choices; Enter gives the first choice |
| `Prompts.TickedChoices` | normalizacion.py:495-499 | the ticked choices, in choice order |
| `Prompts.Checkbox` | normalizacion.py:495-499 | every answer is among the choices; Enter with nothing ticked gives `[]` |
| `Selection.Split` | normalizacion.py:465 | `split(',')` gives at least one piece, none containing a comma |
| `Selection.SplitJoin` | normalizacion.py:465 | joining the pieces back gives the text |
| `Selection.LeadingSpaces` | normalizacion.py:465 | the length of the whitespace prefix: all whitespace, and followed by a non-whitespace character when shorter than the text |
| `Selection.Strip` | normalizacion.py:465 | `strip()` is the slice starting after the leading whitespace, with only whitespace after it, and neither starts nor ends with whitespace |
| `Selection.StripUnique` | normalizacion.py:465 | any slice with only whitespace before and after it and no whitespace at its ends is the stripped text |
| `Selection.StripKeeps` | normalizacion.py:465 | text without whitespace at its ends is its own strip |
| `Selection.ParsePyInt` | normalizacion.py:465 | `int()` succeeds only on text that is not blank; what it accepts and the value it returns are stated by the lemmas in the rows that follow |
| `Selection.ParseIgnoresSurroundingSpace` | normalizacion.py:465 | whitespace around the text changes neither the strip nor `int()` |
| `Selection.ParseDigitGroups` | normalizacion.py:465 | digit groups read as their value, unsigned, after `+`, and negated after `-` |
| `Selection.SignedDigitGroups` | normalizacion.py:465 | one sign character in front of digit groups gives that sign |
| `Selection.DigitsValueUnderscore` | normalizacion.py:465 | an underscore between digits does not change the value |
| `Selection.ParseUnderscoreGroups` | normalizacion.py:465 | `int('1_000')` reads the digits without the underscore |
| `Selection.StripCovers` | normalizacion.py:465 | every non-whitespace character lies inside the stripped text, at its offset from the leading whitespace |
| `Selection.BodyCharFails` | normalizacion.py:465 | a character after the first of the stripped text that is neither digit nor `_` makes `int()` fail |
| `Selection.OtherCharFails` | normalizacion.py:465 | any non-whitespace character that is not a digit, `_`, `+` or `-` makes `int()` fail |
| `Selection.LateSignFails` | normalizacion.py:465 | a sign after another non-whitespace character makes `int()` fail |
| `Selection.InnerSpaceFails` | normalizacion.py:465 | whitespace between two non-whitespace characters makes `int()` fail |
| `Selection.DecimalParses` | normalizacion.py:465 | the decimal text of an index reads back as the index |
| `Selection.ParseIndices` | normalizacion.py:465 | parsing succeeds iff every piece is an integer, and then gives each piece minus 1 |
| `Selection.PickIndices` | normalizacion.py:466 | only occurrences of pool columns, in the order typed; with all indices in range, exactly the indexed columns |
| `Selection.PickIndicesAppend` | normalizacion.py:466 | the picks of a concatenation are the picks of each part in turn |
| `Selection.PickIndicesSingle` | normalizacion.py:466 | one index picks its column when in range and nothing otherwise |
| `Selection.PickIndicesMixed` | normalizacion.py:466 | an in-range index followed by an out-of-range one (`1,99`) picks only the first column |
| `Selection.SelectByIndices` | normalizacion.py:464-469 | a parse failure selects only the first column; otherwise the typed positions that are in range, in order, repeats kept |
| `Selection.EmptyTextPicksFirst` | normalizacion.py:458-469 | empty index text fails to parse and selects the first column |
| `Selection.SingleIndexPicks` | normalizacion.py:464-469 | one typed position n selects the n-th column if it exists, and nothing otherwise |
| `Selection.RemovedMembers` | normalizacion.py:510 | a column stays in the pool iff no selected tuple equals it |
| `Selection.RemovedTwice` | normalizacion.py:510 | removing one selection after another removes their concatenation |
| `Selection.RemovedIsSubsequence` | normalizacion.py:510 | the pool keeps its order |
| `Selection.RenamedColumnStays` | normalizacion.py:478-510 | a renamed column no longer equals its pool tuple, so it stays in the pool |
| `Planner.DefaultTableNamesDistinct` | normalizacion.py:446 | the defaults `d_encuesta` and `d_dimension_N` (with the `d_` prefix of line 124) differ between tables |
| `Planner.FirstOccurrences` | normalizacion.py:507-655 | the distinct names of a list, each once, with the same members |
| `Planner.RegistryLookup` | normalizacion.py:507-655 | the registry (`tablas_creadas` assignments at lines 507, 593, 652 and 655) has distinct keys, which are the created names in order of first creation (`FirstOccurrences`), each bound to the parent of the last table created under that name |
| `Planner.MatchChoices` | normalizacion.py:609-617 | the parent's match choices are its column names except `id` and `fecha_carga_etl` |
| `Planner.MatchChoicesAppend` | normalizacion.py:609-617 | the choices keep the catalog's column order: those of a concatenation are those of each part in turn |
| `Planner.MatchChoicesSingle` | normalizacion.py:609-617 | one column contributes its name unless it is `id` or `fecha_carga_etl` |
| `Planner.ParentChoices` | normalizacion.py:596-600 | the parent choices are the registry's keys in order, then `Ninguna`; a choice is a created name or `Ninguna` |
| `Planner.RenameSpec` | normalizacion.py:478-483 | the reference rename loop: each column's confirm and name prompt in turn; a renaming keeps length, types and staging names |
| `Planner.RenameAnswers` | normalizacion.py:129-143 | `Yes` then typed text renames the first column; `Yes` then Enter, `No` or Enter keep it; `Yes` then a cancelled prompt stops the run |
| `Planner.RenameWithoutYes` | normalizacion.py:129-143 | without a `Yes` among the answers read, the loop changes nothing |
| `Planner.RegistryParentsRegistered` | normalizacion.py:596-652 | every parent in the registry is itself a registered table |
| `Planner.LinkedNeverRaises` | normalizacion.py:602-652 | a linked group always passes an FK column, so its build never raises, and the FK column is given iff the FK table is |
| `Planner.RenameColumns` | normalizacion.py:478-483 | the rename loop, with `preguntar_nombre_columna` (lines 129-143) per column, computes `RenameSpec`: only names change, types and staging names stay; without a yes nothing changes |
| `Planner.ChooseColumns` | normalizacion.py:450-469 | `Yes` to "use all" takes the whole pool; otherwise typed text selects by `SelectByIndices`, Enter takes the first column, and a cancelled prompt gives None; the answer count is exact |
| `Planner.AskUnique` | normalizacion.py:486-503 | without an accepted confirm no unique list; with one, the checkbox answer over the column names |
| `Planner.MainSpec` | normalizacion.py:445-503 | reference definition of one table's prompts; a request it builds takes its columns from the pool, has no FK arguments, reads at least one answer, and under Enter at the name prompt is named `DefaultTableName(counter)` |
| `Planner.MainRound` | normalizacion.py:445-503 | the round's request and cursor are exactly those of `MainSpec`: the typed or default name, the columns of `ChooseColumns`, renamed by the rename step, and the unique list of `AskUnique`, with no FK arguments; a cancelled prompt gives none |
| `Planner.PartitionMainColumns` | normalizacion.py:431-526 | the loop's end state is exactly `Partitioned(main, script)`; the pool is the main list minus every tuple a created table took; the loop ends with an empty pool, on a refused "create another table?" with a non-empty pool, or on a cancelled prompt; every earlier such question was answered yes and added one to the counter; the registry is the fold of the requests |
| `Planner.PartitionLoop` | normalizacion.py:434-526 | the `while columnas_disponibles` loop ends in the `Partitioned` state, with the registry of its requests and the answers to "create another table?" |
| `Planner.PartitionStep` | normalizacion.py:434-526 | one test and round of the loop: from a state reached after `counter - 1` rounds it ends in the `Partitioned` state, or reaches the state after one round more with the cursor strictly further |
| `Planner.RecordTable` | normalizacion.py:506-526 | the request is appended to `created` and registered with no parent, its columns leave the pool, and the new state is the one `RoundOutcome` gives: the next round, or the end of the loop on an empty pool or a refused "create another table?" |
| `Planner.PartitionSpec` | normalizacion.py:434-526 | reference definition of the loop: rounds while the pool is not empty, each ending the loop or leading to the next; the cursor stays within the script |
| `Planner.Reached` | normalizacion.py:434-526 | the loop state after at most `n` rounds; a state it reaches stays within the script |
| `Planner.ReachedSpec` | normalizacion.py:434-526 | every state the loop passes through ends in the same `PartitionSpec` outcome |
| `Planner.SpecFacts` | normalizacion.py:434-526 | from a sound state the loop ends with the pool equal to the started pool minus what the requests took, every request a main request taking main columns, an empty pool iff it stopped on `PoolEmpty`, a non-empty pool on `Declined`, and one request per round except a cancelled last one |
| `Planner.PartitionedFacts` | normalizacion.py:431-526 | the same facts for the loop started on the whole main list with counter 1 |
| `Planner.Attempts` | normalizacion.py:434-526 | the rounds of the loop in order: round k starts from a non-empty pool, has counter `counter + k`, and its outcome is the round function on that pool and cursor |
| `Planner.PartitionAttempts` | normalizacion.py:434-526 | the loop's requests are exactly the outcomes of its rounds, in order, and the loop stops as Aborted iff its last round was cancelled |
| `Planner.MainAttempts` | normalizacion.py:431-446 | round k of the loop on the main list has counter k + 1; the first starts on the whole main list at the first answer |
| `Planner.PartitionResults` | normalizacion.py:434-526 | table k of the loop is the request of round k |
| `Planner.PartitionRequest` | normalizacion.py:445-507 | table k is the request `MainSpec` builds in round k with counter k + 1 |
| `Planner.MainAttemptResult` | normalizacion.py:445-503 | the outcome of round k is the one `MainSpec` gives it with counter k + 1 |
| `Planner.PartitionDefaultName` | normalizacion.py:445-446 | Enter at the name prompt of round k names table k `DefaultTableName(k + 1)` |
| `Planner.PartitionAborted` | normalizacion.py:434-526 | the loop stops as Aborted iff its last round's `MainSpec` is cancelled |
| `Planner.FirstAttemptAtStart` | normalizacion.py:445-446 | the first round reads the first answer of the script |
| `Planner.FirstTableDefaultName` | normalizacion.py:445-446 | with Enter as the first answer, the first table is named `d_encuesta` |
| `Planner.PoolTakenFromMain` | normalizacion.py:450-510 | columns taken from the pool are columns of the main list |
| `Planner.UnassignedColumns` | normalizacion.py:510-521 | a column is left unassigned iff it is a main column no table took, and unassigned columns keep their order |
| `Planner.LinkGroup` | normalizacion.py:562-655 | an accepted "independent?" gives an unlinked table with the checkbox's unique columns; otherwise `Ninguna`, an empty or a cancelled pick give an unlinked table, and a registered parent `p` gives a table linked to `p` through `<p>_id` with the two picked match columns, or stops the run when a choice list is empty |
| `Planner.GroupSpec` | normalizacion.py:533-655 | reference definition of one group: a declined create skips it, a cancelled name or rename stops the run, otherwise `LinkGroup` decides; a made table satisfies the link rules, renames the group's columns, and under Enter at the name prompt is named `d_<group>`; an answer is consumed while answers last |
| `Planner.GroupRound` | normalizacion.py:533-655 | the round's result and cursor are exactly those of `GroupSpec`; the group is always asked whether to create it (one answer consumed); a declined group makes nothing; a made table has the typed or default `d_<group>` name, the columns of the rename step and the link of `LinkGroup`, and satisfies the link rules: a parent only among tables created before it, never `Ninguna`, FK column `<parent>_id`, match columns from the parent and the staging columns |
| `Planner.GroupsSpec` | normalizacion.py:533-655 | reference definition of the group pass, group by group in dict order; it only appends requests, at most one per group |
| `Planner.GroupsSpecStep` | normalizacion.py:533-655 | a group's round ends the pass when it stops the run, and otherwise the pass goes on from the next group with the round's request appended, if it made one |
| `Planner.GroupsFacts` | normalizacion.py:533-655 | the pass keeps every request linked as the link rules demand, makes each new request from one group's columns, and reads an answer for every group while answers last |
| `Planner.MadeSound` | normalizacion.py:533-655 | a round that makes a request keeps those facts from the rest of the pass |
| `Planner.ResolveGroups` | normalizacion.py:533-655 | the pass's outcome is exactly `GroupsSpec`; every group is asked at least once, so a completed pass consumes one answer per group while answers last; the pass only appends tables, each made from one group's columns; every table keeps the link rules and the registry stays the fold of the requests |
| `Planner.GroupsLoop` | normalizacion.py:533-655 | the `for` loop over the groups computes `GroupsSpec`, and its registry is the fold of its requests |
| `Planner.NormalizeInteractive` | normalizacion.py:413-655 | the number of main tables and the unassigned columns are those of `Partitioned`; when the loop aborted the run ends with its requests, and otherwise the outcome is `GroupsSpec` from the loop's end; every request satisfies the link rules and none makes the build raise; the main tables take columns of the main list; the unassigned columns are the main list minus what they took |
| `Planner.PlanTables` | normalizacion.py:413-655 | the partition loop then the group pass: the outcome as `Partitioned` and `GroupsSpec` give it, with the registry of its requests |
| `Planner.PlanFacts` | normalizacion.py:413-655 | such an outcome keeps the link rules, never makes the build raise, keeps the loop's tables first, and leaves unassigned the main columns they did not take |
| `Planner.PrefixFacts` | normalizacion.py:528-655 | the group pass keeps the main tables first, with their provenance |
| `Planner.AllLinkedNeverRaise` | normalizacion.py:645-655 | no table the driver requests makes `crear_dimension_edw` raise |

## Left out

- The network calls of `api.py`, the settings of `config.py` and the entry point `main.py` are not part of this model. Survey names and submissions are inputs.
- Database connections, cursors and the SQL text are not modelled. Catalogs and table contents are inputs; statements are abstract values.
  - Whether PostgreSQL accepts a statement is not modelled, for example the constraint names built from identifiers, or DISTINCT ON over destination names.
  - A failing INSERT is given as the set of submission positions that raise.
- Printing, `json.dumps` of the first submission, the tracebacks and the final summaries are left out. The diagnostic report is returned as data, and the detail text is a datatype rather than a formatted line.
- Interactive prompts are a scripted answer sequence, and the `questionary` styling is left out.
  - A Select over an empty choice list stops the run, since `questionary` refuses it.
  - A cancelled text prompt (None) stops the run. The source fails only later, when the None name is used, and a None rename of a column whose staging name is `id` does not fail at all.
- Characters are ASCII only. The Unicode meaning of `\w`, `\d`, `\s` and `str.lower` is not modelled.
- The calendar takes the year as a parameter instead of `date.today()`.
  - `strftime('%Y')` is modelled without zero padding for years below 1000. Padding would not change the integer value.
  - The DDL and insert loop of `crear_dimension_tiempo` are left out.
- `Relational.DistinctOnFrom` keeps the first row of each key combination in staging order, and `Relational.Number` then numbers the rows in that order. Under `DISTINCT ON … ORDER BY` the source inserts the rows in key order, so the SERIAL ids follow the key order, and the representative row may differ. Only the counts, the keys and the distinctness of the ids are stated.
- `ON CONFLICT DO NOTHING` is left out. The destination table is always re-created empty before the INSERT, so it adds nothing to the row counts.
- The order in which PostgreSQL evaluates `jsonb_array_length` inside the JSONB emptiness query is left out. The emptiness predicate is stated on values.
- `table_name.replace('dsa.', '')` is left out: tables are named directly.
- `Dimension.MigrationChoice`: when an FK table is given without both match columns, the early return leaves the re-created table uncommitted. The model states only that no INSERT is issued.
- `JsonValue.Lookup` takes the first binding of a key. Decoded submissions have distinct keys, so this matches `dict.get`.
- `configurar_tabla_principal` is left out, because the driver never calls it.
- `limpiar_tabla_dsa` is left out, because it repeats the cleanup of `limpieza.py` that `Cleanup` models.
- The orchestration in `limpiar_tabla`, `migrate_kobo_to_postgres` and `crear_dimension_tiempo` is modelled only where it computes something: the drop set, the schema and row logic, and the calendar.
- No lemma states a concrete string example such as `nombreEstudiante`. The boundary rule is stated for all inputs by `SnakeCase.SplitCamelInsertsAtBoundaries`.
- A parent is a table registered before the request that names it. Table names may be reused, so the registry can hold a cycle: creating `A`, then `B` linked to `A`, then `A` again linked to `B` gives `{A: B, B: A}`. The model states only that every parent is registered.
- ParsePyInt: CPython refuses decimal text of more than 4300 digits with a ValueError, so the source would select the first column; the model reads such text as its number.
- A prefix with a camel-case boundary, such as `gROUP` next to `group`, gets key `g_roup` and lands in its own group. `Structure.CaseVariantsShareGroup` therefore requires boundary-free prefixes.

## Findings

| source | as written | input that shows it | evidently intended | confidence | as-written member | corrected member |
|---|---|---|---|---|---|---|
| limpieza.py:33 | the comma after `'_xform_id_string'` sits inside the comment, so Python joins it with `'_uuid'` on the next line into `'_xform_id_string_uuid'` | a staging table with a non-empty `_xform_id_string` column: the cleanup keeps it | `_xform_id_string` is one of the redundant columns that are always dropped | high; not executed | `Cleanup.RedundantColumnsAsWritten`, `Cleanup.AsWrittenLacksXformIdString`, `Cleanup.XformIdStringKept` | `Cleanup.RedundantColumns`, `Cleanup.RedundantColumnsCardinality`, `Cleanup.CleanTable` |
